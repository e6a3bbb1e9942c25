# Verified byte buffers, buffered output and client teardown

This project models, in Dafny 4.11, two parts of the repository and proves what they promise:
the byte-buffer machinery of the bundled asio headers (`ServerAsio/include/asio`), and the way
the server tears its clients down (`Server`).  `dafny verify dfyconfig.toml` checks all of it.

## What is modelled

**Buffers** (`Buffers.dfy`).  Memory is one flat array.  A buffer is an address and a size, a
buffer sequence is a list of buffers of which any may be empty, and what a sequence means is
`Flatten`: the list of addresses it denotes.

**Iterating** (`BuffersIterator.dfy`).  `buffers_iterator` keeps a position, a current buffer and
an offset in it.  They are proved to agree in every reachable state (`Canonical`), to be decided
by the position alone, and `advance`, which jumps over whole buffers, is proved equal to that
many single steps.  Its backward loop ends, and never in its "reached the beginning" branch: in
the Dafny method that branch holds `assert false`.

**Copying** (`BufferCopy.dfy`).  `buffer_copy` and its overloads are proved against one byte-wise
copy of the flattened sequences, under the condition that the bytes really written do not
overlap each other or the bytes read.

**Queues** (`ByteFifo.dfy`, `Streambuf.dfy`, `DynamicBuffer.dfy`, `FifoEquivalence.dfy`).
`ByteFifo` says what a bounded byte queue shows its user over a run of operations.
`basic_streambuf` shows exactly that, across every move, resize and stale `egptr`; so does
`dynamic_vector_buffer` in the DynamicBuffer_v1 protocol; hence the two cannot be told apart.

**Output** (`SocketStreambuf.dfy`).  `basic_socket_streambuf` over a socket that takes as many
bytes as it likes.  The environment of a call is the finite list of what its sending loop meets.
Two accounts are proved: runs without failures conserve every character, and runs with any
failures lose none unless a `close` drops it.  When characters go out is proved too: never before
the put area is full, all of them at a sync, and at once when buffering is off.

**Teardown** (`Teardown.dfy`, `TeardownEnds.dfy`, `TeardownPackets.dfy`).  A `ConnectedClient` as
a state machine: the receiver thread, the sender thread, the thread that calls `disconnect`, and
callers of `sendPacket`, in any interleaving.  One step is one access to shared state, together
with accesses that commute with whatever happens in between; `isRunning()` is three steps.  The
first file proves what every step keeps and what `disconnect`
has done when it returns, the second when it returns at all, with and without the server's
mutex, and the third what becomes of the packets.

**The cleaner** (`Cleaner.dfy`).  The sweep that erases map entries while it iterates.  Its client
is the client of the state machine seen from outside; `DisconnectAgrees` and `SweepFindsTheLost`
tie the two together.

## Where the code does less than it says

- `basic_streambuf`: `reserve` moves the input sequence to the front of the buffer before it
  finds out that it has to throw.  The stream pointers stay, so after `std::length_error` the
  input sequence may hold other bytes.  `Reserve` says exactly which, `SurvivesThrow` when no
  bytes can change (the get offset is 0, or the input is no longer than it), and
  `ThrowChangesInput` shows a streambuf on which they do.
- `basic_streambuf`: `commit` and `consume` cast a count to `int`, and `consume` clamps it by
  comparing `gptr() + n`, which can wrap around, with `pptr()`.  `Commit` and
  `ConsumesExactlyIff` say exactly when the documented number of bytes is moved.
  With room for 2^31 bytes, committing them gives a negative size (`CommitTooMuch`).  Asked to
  consume `SIZE_MAX` bytes an empty streambuf grows by one (`ConsumeTooMuch`), where the dynamic
  vector buffer stays empty (`ConsumeTooMuchFromBoth`).
- `basic_socket_streambuf`: a failed flush leaves the bytes it did send in the put area, so the
  next flush sends them again.  Failing and retrying delivers what was accepted, whatever the
  socket does, exactly when at most one byte was pending (`RetryIsExactIffOnePending`; an object
  that repeats a byte is in `RetryRepeats`).
- `basic_socket_streambuf`: `close` ignores the outcome of its flush and reports success while
  it drops what was not sent.  It delivers everything, whatever the socket does, exactly when
  nothing was pending (`CloseDeliversIffNothingPending`; `CloseDrops` loses a byte).
- `ConnectedClient`: the sender takes the packet at the back of the main queue and pops the one
  at the front.  So it handles the last packet once for each queued one
  (`TheLastIsHandledForEach`), and every queued packet gets its turn only when all are the same
  (`EveryPacketHandledIffAllAlike`).  `FirstPacketIsLost` is a run of a fresh client with two
  packets that sends the second twice and the first never.
- `ConnectedClient`: `sendPacket` and `disconnect` take no lock.  A teardown takes a bounded
  number of steps plus at most 16 for each packet queued meanwhile (`TeardownFinishes`, which
  also bounds what further calls of `disconnect` add), and
  packets that keep coming do keep the drain from ending (`DrainCanStarve`).  The server queues
  packets and disconnects only while it holds `clients_mutex`; under that discipline every
  teardown finishes and leaves nothing behind (`LockedTeardownFinishes`,
  `LockedTeardownLeavesNothing`).
- `ConnectedClient`: a packet that asks for an ACK is confirmed by any packet at all
  (`HandlingOutcome`): the handler of the answer does not look at it.  `AnyPacketConfirms` is such
  a run, from a fresh client and for every answer.

## Assumptions

- Integers are unbounded, except where a width decides something: `buffer_size` wraps at
  2^64, `SIZE_MAX` is the sentinel of the dynamic buffer, `pbump` and `gbump` take an `int`, and
  `gptr() + n` wraps at 2^64.  Where the buffer lies is a parameter of `Consume`.  Runs of queue
  operations assume that it lies in the lower half of the address space, and that a consume asks
  for at most 2^63 - 1 bytes, so that the sum cannot wrap.
- Allocation succeeds, and growing a vector fills it with zeros.  The capacity of a vector is a
  parameter of `ReadSizeHelper`; it is at least the size.
- In the teardown model accesses to shared fields are atomic and sequentially consistent,
  blocking calls return, one thread at a time disconnects a client, and nobody sets the sockets
  of a running client.  A positive return code is fatal and a negative one is not; the macro
  that tells them apart is in a header that is not part of this model.
- `LockedTeardownFinishes` and `LockedTeardownLeavesNothing` assume the discipline of the server:
  a packet is queued only while no `disconnect` of that client is under way
  (`Server/Server.cpp:194-232`, `Server/Server.cpp:275-290`, `Server/Cleaner.cpp:99-119`).
- In `Cleaner.dfy` the joins in `disconnect` let both threads reset their sockets at once.
  `DisconnectAgrees` proves that this is what a step-by-step teardown leaves, if nothing is
  queued after its drain.

## Model

| member | source | states |
|---|---|---|
| Buffers.SplitBuffer | ServerAsio/include/asio/buffer.hpp:648-659 | `b + n` and `buffer(b, n)` cover the rest and the prefix of `b`, clamp at its end, split it without loss, and offsets add up |
| Buffers.BufferSize | ServerAsio/include/asio/buffer.hpp:556-570 | the loop returns the total size modulo the width of `size_t` |
| Buffers.DisjointBuffersFit | ServerAsio/include/asio/buffer.hpp:574-599 | on buffers that share no byte the total does not wrap, by a pigeonhole argument on addresses |
| BuffersIteration.CanonicalIffLocated | ServerAsio/include/asio/buffers_iterator.hpp:493-498 | a consistent cursor is exactly the place a walk from the front finds for its position |
| BuffersIteration.PositionDecides | ServerAsio/include/asio/buffers_iterator.hpp:347-351 | equal positions mean same buffer and same offset, and smaller positions mean earlier places |
| BuffersIteration.MovesCompose | ServerAsio/include/asio/buffers_iterator.hpp:255-294 | `(it + m) + k == it + (m + k)` and `(it + n) - n == it` |
| BuffersIteration.StepsUndo | ServerAsio/include/asio/buffers_iterator.hpp:353-404 | `++` and `--` undo each other across any number of empty buffers |
| BuffersIteration.OrderIsReachability | ServerAsio/include/asio/buffers_iterator.hpp:315-337 | `a <= b` exactly when some number of forward steps leads from `a` to `b` |
| BuffersIteration.CursorAddress | ServerAsio/include/asio/buffers_iterator.hpp:340-345 | a consistent cursor at position `p` points at byte `p` of the flattened sequence |
| BuffersIteration.TraverseMeetsAll | ServerAsio/include/asio/buffers_iterator.hpp:353-374 | incrementing to the end meets every byte of every buffer once, in order |
| BuffersIteration.ReachableIffCanonical | ServerAsio/include/asio/buffers_iterator.hpp:406-485 | the states reachable by in-range moves are exactly the consistent ones |
| BuffersIteration.BuffersIterator.Begin | ServerAsio/include/asio/buffers_iterator.hpp:167-184 | the iterator is valid and at position 0, past any empty buffers |
| BuffersIteration.BuffersIterator.End | ServerAsio/include/asio/buffers_iterator.hpp:187-203 | the iterator is valid and one past the last byte |
| BuffersIteration.BuffersIterator.Dereference | ServerAsio/include/asio/buffers_iterator.hpp:341-345 | the reference is to byte `position_` of the flattened sequence |
| BuffersIteration.BuffersIterator.Increment | ServerAsio/include/asio/buffers_iterator.hpp:354-374 | one step forward, to the next byte in any non-empty buffer |
| BuffersIteration.BuffersIterator.Decrement | ServerAsio/include/asio/buffers_iterator.hpp:377-404 | one step back |
| BuffersIteration.BuffersIterator.Advance | ServerAsio/include/asio/buffers_iterator.hpp:407-485 | a jump by `n` lands where `n` single steps land, forward or back |
| BuffersIteration.BuffersIterator.AdvanceForward | ServerAsio/include/asio/buffers_iterator.hpp:409-441 | the forward loop ends with the position moved by `n`, its out-of-bounds assertion holding |
| BuffersIteration.BuffersIterator.AdvanceBackward | ServerAsio/include/asio/buffers_iterator.hpp:442-484 | the backward loop ends, on the buffer index, and never in the branch at the beginning |
| BuffersIteration.BuffersIterator.Plus | ServerAsio/include/asio/buffers_iterator.hpp:270-294 | the original stays, the copy has moved |
| BuffersIteration.BuffersIterator.Index | ServerAsio/include/asio/buffers_iterator.hpp:218-223 | `it[n]` is byte `position + n` of the flattened sequence |
| BuffersIteration.ComparisonsAreSound | ServerAsio/include/asio/buffers_iterator.hpp:296-337 | on two iterators over one sequence, `==`, `<` and `-` agree with places and with the number of steps between them |
| BufferCopying.FlatCopyIsTheCopy | ServerAsio/include/asio/buffer.hpp:2164-2166 | without overlap the byte-wise copy is the only memory with the source bytes at the target and all else unchanged |
| BufferCopying.CopyKeepsToBudget | ServerAsio/include/asio/buffer.hpp:2303-2316 | the bytes a bounded copy may copy are no more than the budget or either total, reach one of the three, and are the only bytes that change |
| BufferCopying.BufferCopy1 | ServerAsio/include/asio/buffer.hpp:2171-2181 | one `memcpy` of the smaller size is that byte-wise copy |
| BufferCopying.CopyManyToManyBounded | ServerAsio/include/asio/buffer.hpp:2291-2337 | for all sequences and budgets the loop ends, at the budget or at the end of a sequence and never past either, and exactly the bytes counted are copied, as one flat copy |
| BufferCopying.CopyManyToMany | ServerAsio/include/asio/buffer.hpp:2247-2289 | the same without a budget |
| BufferCopying.CopyOneToMany | ServerAsio/include/asio/buffer.hpp:2201-2222 | the overload for one target buffer agrees with the general loop, stops at the budget or the end of a sequence, and changes no other byte |
| BufferCopying.CopyManyToOne | ServerAsio/include/asio/buffer.hpp:2224-2245 | the overload for one source buffer agrees with the general loop, stops at the budget or the end of a sequence, and changes no other byte |
| BufferCopying.CopyOneToOne | ServerAsio/include/asio/buffer.hpp:2183-2189 | the overload for two single buffers agrees with the general loop |
| BufferCopying.CopyOneToOneBounded | ServerAsio/include/asio/buffer.hpp:2191-2199 | the same with a budget |
| BufferCopying.SizeMaxIsNoBound | ServerAsio/include/asio/buffer.hpp:2205-2206 | a default bound of `SIZE_MAX` bounds no copy that overlaps nothing |
| BufferCopying.BufferCopy | ServerAsio/include/asio/buffer.hpp:2360-2371 | whichever overload is selected, the result is that of the bounded loop with a budget of `SIZE_MAX`: the smaller total is copied and no other byte changes |
| BufferCopying.BufferCopyBounded | ServerAsio/include/asio/buffer.hpp:2397-2409 | whichever overload is selected, the result is that of the bounded loop: it copies up to the budget or the end of a sequence, never past either, and changes no other byte |
| BufferCopying.CopyMeansPrefix | ServerAsio/include/asio/buffer.hpp:2149-2165 | exactly the prefix of the flattened target becomes the prefix of the flattened source, and no other byte changes |
| ByteFifo.FirstInFirstOut | ServerAsio/include/asio/basic_streambuf.hpp:39-45 | over a run, all bytes ever in are the bytes removed followed by the bytes left |
| ByteFifo.NeverTooLong | ServerAsio/include/asio/basic_streambuf.hpp:62-68 | `size() <= max_size()` at every point of a run |
| ByteFifo.IntCastIsCongruent | ServerAsio/include/asio/basic_streambuf.hpp:236 | the cast to `int` keeps the count modulo 2^32 and lands in the range of an `int`, so it keeps exactly the counts below 2^31 |
| ByteFifo.SmallOperationsAreAllowed | ServerAsio/include/asio/basic_streambuf.hpp:221-247 | the runs the results speak of include every operation the documentation allows, as long as counts and contents stay below 2^31 |
| ByteFifo.RunsExtend | ServerAsio/include/asio/basic_streambuf.hpp:225-231 | an allowed run goes on with exactly the operations allowed where it has got to |
| Streambuf.SurvivesThrow | ServerAsio/include/asio/basic_streambuf.hpp:321-340 | the bytes survive a throwing reserve, whatever they are, exactly when the get offset is 0 or the input is no longer than it |
| Streambuf.ThrowChangesInput | ServerAsio/include/asio/basic_streambuf.hpp:308-346 | a streambuf of at most four bytes holding 1, 2, 3 behind a consumed byte holds 2, 3, 3 after a throwing prepare |
| Streambuf.ConsumesExactlyIff | ServerAsio/include/asio/basic_streambuf.hpp:247-254 | the count handed to `gbump` is the documented one exactly when it fits an `int` and `gptr() + n` stays inside the address space, or the cast happens to give the size |
| Streambuf.ConsumeTooMuch | ServerAsio/include/asio/basic_streambuf.hpp:247-254 | an empty streambuf asked to consume `SIZE_MAX` bytes has size 1 afterwards, wherever its buffer lies |
| Streambuf.CommitTooMuch | ServerAsio/include/asio/basic_streambuf.hpp:233-238 | a streambuf with room for 2^31 bytes, asked to commit them, has size -2^31 afterwards |
| Streambuf.BasicStreambuf.constructor | ServerAsio/include/asio/basic_streambuf.hpp:131-141 | an empty queue whose put area ends at 128 or at the maximum |
| Streambuf.BasicStreambuf.Reserve | ServerAsio/include/asio/basic_streambuf.hpp:308-346 | throws exactly when `size() + n > max_size()`; otherwise there is room for `n` and the bytes are the same; all pointers afterwards; what a throw leaves |
| Streambuf.BasicStreambuf.Prepare | ServerAsio/include/asio/basic_streambuf.hpp:214-219 | returns the room at `pptr()` and throws exactly when `size() + n > max_size()` |
| Streambuf.BasicStreambuf.Commit | ServerAsio/include/asio/basic_streambuf.hpp:233-238 | appends the first `n` bytes of the room, or all of it, exactly when that many fit an `int`; where the pointers go otherwise |
| Streambuf.BasicStreambuf.Consume | ServerAsio/include/asio/basic_streambuf.hpp:247-254 | removes the first `n` bytes, or all of them, also from a stale get area, exactly when neither the cast nor a wrapping sum goes wrong; where the pointers go otherwise |
| Streambuf.BasicStreambuf.Underflow | ServerAsio/include/asio/basic_streambuf.hpp:263-274 | the first byte of the queue, end-of-file exactly when it is empty |
| Streambuf.BasicStreambuf.Overflow | ServerAsio/include/asio/basic_streambuf.hpp:283-306 | appends the character, and throws exactly when `size() == max_size()`; a full put area is first moved to the front and grown by 128 bytes, or by what the maximum leaves |
| Streambuf.BasicStreambuf.ReadSizeHelper | ServerAsio/include/asio/basic_streambuf.hpp:353-359 | the size fits the maximum and the limit for every capacity, and is 0 only when nothing may or can be read; unless one of them stops it, it is at least 512 and the spare capacity, and the larger of the two only |
| Streambuf.BasicStreambuf.PrepareForRead | ServerAsio/include/asio/basic_streambuf.hpp:353-359 | preparing that size never throws, and returns room for just that size |
| Streambuf.BasicStreambuf.Run | ServerAsio/include/asio/basic_streambuf.hpp:214-346 | over every run whose counts fit an `int` and whose sums do not wrap, the streambuf shows exactly the byte queue, including the operation at which it throws |
| DynamicBuffer.DynamicVectorBuffer.Data | ServerAsio/include/asio/buffer.hpp:1922-1925 | the whole vector before the first prepare, afterwards a prefix of it of exactly the reported size |
| DynamicBuffer.DynamicVectorBuffer.Size | ServerAsio/include/asio/buffer.hpp:1877-1884 | the size is that of the data, also when it equals the sentinel |
| DynamicBuffer.DynamicVectorBuffer.Prepare | ServerAsio/include/asio/buffer.hpp:1985-1999 | throws exactly when `size() + n > max_size()` and then changes nothing |
| DynamicBuffer.DynamicVectorBuffer.Commit | ServerAsio/include/asio/buffer.hpp:2014-2018 | appends the first `n` bytes of the room and drops the rest |
| DynamicBuffer.DynamicVectorBuffer.Consume | ServerAsio/include/asio/buffer.hpp:2063-2075 | removes the first `n` bytes, or all of them, in either protocol |
| FifoEquivalence.RunBoth | ServerAsio/include/asio/basic_streambuf.hpp:214-254 | a streambuf and a dynamic vector buffer that start empty with one maximum show the same bytes after every operation of such a run and throw at the same one |
| FifoEquivalence.ConsumeTooMuchFromBoth | ServerAsio/include/asio/basic_streambuf.hpp:247-254 | outside such runs they differ: after both consume `SIZE_MAX` bytes from nothing one holds a byte and the other none |
| FifoEquivalence.RunVector | ServerAsio/include/asio/buffer.hpp:1985-2075 | over every allowed run the dynamic vector buffer shows exactly the byte queue |
| SocketStreambuf.OutputIsConserved | ServerAsio/include/asio/basic_socket_streambuf.hpp:468-558 | in any run in which no overflow fails, wire followed by put area is every character accepted, once and in order, buffered or not |
| SocketStreambuf.NothingAcceptedIsLost | ServerAsio/include/asio/basic_socket_streambuf.hpp:468-558 | in any run, whatever fails, every character accepted is on the wire or in the put area, in order, unless a close drops it |
| SocketStreambuf.CapacityIsWhatIsSent | ServerAsio/include/asio/basic_socket_streambuf.hpp:490-523 | the loop takes what the sends take up to the first pass that ends it, and goes on after a send of some bytes and after a poll that succeeds |
| SocketStreambuf.SyncDeliversAll | ServerAsio/include/asio/basic_socket_streambuf.hpp:542-545 | when a run ends with a sync and nothing in it failed, every character accepted is on the wire and none is pending |
| SocketStreambuf.UnbufferedGoesOutAtOnce | ServerAsio/include/asio/basic_socket_streambuf.hpp:468-558 | once buffering is off it stays off, nothing ever waits, and the wire is every character accepted, in any run, whatever fails |
| SocketStreambuf.NothingGoesOutBeforeFull | ServerAsio/include/asio/basic_socket_streambuf.hpp:468-540 | while the put area has room, characters are accepted without sending anything |
| SocketStreambuf.TakesFirst512 | ServerAsio/include/asio/basic_socket_streambuf.hpp:98-104 | a fresh streambuf accepts 512 characters, whatever the socket does, and sends none of them |
| SocketStreambuf.SendsUnbuffered | ServerAsio/include/asio/basic_socket_streambuf.hpp:477-558 | after `setbuf(0, 0)` a character is on the wire when `sputc` returns, however often the socket would have blocked before |
| SocketStreambuf.RetryIsExactIffOnePending | ServerAsio/include/asio/basic_socket_streambuf.hpp:490-528 | failing and retrying delivers just what was accepted, whatever the socket does, exactly when at most one byte was pending |
| SocketStreambuf.RetryRepeats | ServerAsio/include/asio/basic_socket_streambuf.hpp:490-528 | a streambuf on which 1, 2 arrive as 1, 1, 2 |
| SocketStreambuf.CloseDeliversIffNothingPending | ServerAsio/include/asio/basic_socket_streambuf.hpp:299-306 | a close that reports success has delivered everything, whatever the socket does, exactly when nothing was pending; it always empties the put area |
| SocketStreambuf.CloseDrops | ServerAsio/include/asio/basic_socket_streambuf.hpp:299-306 | a streambuf whose close succeeds and loses a character |
| SocketStreambuf.SocketOutput.constructor | ServerAsio/include/asio/basic_socket_streambuf.hpp:98-104 | an empty put area of 512 bytes |
| SocketStreambuf.SocketOutput.SendAll | ServerAsio/include/asio/basic_socket_streambuf.hpp:490-523 | the loop succeeds exactly when the environment takes all bytes, and the wire gets the prefix it took |
| SocketStreambuf.SocketOutput.Overflow | ServerAsio/include/asio/basic_socket_streambuf.hpp:468-540 | flushes, then stores the character; sends it by itself when unbuffered; what is on the wire and in the put area after success and after failure |
| SocketStreambuf.SocketOutput.Setbuf | ServerAsio/include/asio/basic_socket_streambuf.hpp:547-558 | turns buffering off exactly when asked with null and 0 and nothing is pending: then there is no put area any more; otherwise nothing changes |
| SocketStreambuf.SocketOutput.Close | ServerAsio/include/asio/basic_socket_streambuf.hpp:299-306 | ignores the outcome of the flush, of which the wire gets what the socket takes, and resets the put area when the socket closes |
| SocketStreambuf.SocketOutput.InitBuffers | ServerAsio/include/asio/basic_socket_streambuf.hpp:566-576 | empties the put area and keeps the buffering mode |
| SocketStreambuf.SocketOutput.Run | ServerAsio/include/asio/basic_socket_streambuf.hpp:299-558 | over every run of puts, flushes, `setbuf` and `close`, whatever fails in it, the object follows the channel; so it loses nothing it accepted unless a close drops it, and conserves its output when no call fails |
| Teardown.StepKeepsInv | Server/ConnectedClient.cpp:73-271 | every step of every thread keeps the sockets, closes, flags, joins and containers in agreement |
| Teardown.NotRunningIsForEver | Server/ConnectedClient.h:33-35 | once `isRunning()` is false it stays false, in every interleaving |
| Teardown.TeardownIsComplete | Server/ConnectedClient.cpp:73-102 | in every run after `createThreads` each socket is closed at most once and by its own thread; when `disconnect` has returned true both are closed and invalid, both threads are done, and only packets queued after the drain are left |
| Teardown.DrainedStaysEmpty | Server/ConnectedClient.cpp:88-101 | once the drain is over and nobody calls `sendPacket`, `disconnect` returns with all four containers empty |
| Teardown.ReceiverKeepsReceiving | Server/ConnectedClient.cpp:189-199 | while the client runs, nothing but a closed or broken connection stops the receiver |
| Teardown.FatalAnswerIsFinal | Server/ConnectedClient.cpp:297-325 | after a closed or broken connection the receiver never receives again |
| Teardown.SenderKeepsSending | Server/ConnectedClient.cpp:227-251 | while the client runs, no failed send and no missing ACK stops the sender |
| TeardownEnds.EveryStepCounts | Server/ConnectedClient.cpp:180-271 | once the client is not running, for whatever reason, every step of any thread decreases one bound |
| TeardownEnds.LostConnectionEndsThreads | Server/ConnectedClient.cpp:189-271 | a client that is not running, disconnected or not, comes to rest within that bound plus 16 steps for each packet queued and a bounded number for each call of `disconnect`; at rest both sockets are closed, and if `disconnect` was called the client is disconnected |
| TeardownEnds.ReturnsTrueOnce | Server/ConnectedClient.cpp:73-102 | in every run, however often `disconnect` is called, it has returned true once when the client is disconnected and not at all before |
| TeardownEnds.LateCallReturnsFalse | Server/ConnectedClient.cpp:75-76 | a call of `disconnect` on a client that is not started, as the destructor makes it, returns false under every schedule |
| TeardownEnds.TeardownFinishes | Server/ConnectedClient.cpp:73-102 | under every schedule a teardown takes boundedly many steps plus at most 16 for each packet queued meanwhile and a bounded number for each further call of `disconnect`, and never stops before the client is disconnected and, unless called again, `disconnect` has returned true |
| TeardownEnds.DrainCanStarve | Server/ConnectedClient.cpp:94-95 | from every fresh client there is, for every `n`, a run in which `n` queued packets keep `disconnect` at its drain for `2 * n` more steps |
| TeardownEnds.LockedTeardownFinishes | Server/Cleaner.cpp:99-119 | when packets are queued only outside a `disconnect`, a teardown that has not returned has taken boundedly many steps and can take another |
| TeardownEnds.LockedTeardownLeavesNothing | Server/Server.cpp:194-232 | under the same discipline, in every run after `createThreads`, `disconnect` returns true with all four containers empty |
| TeardownPackets.PacketsAreRecorded | Server/ConnectedClient.cpp:275-346 | until the threads are stopped, the two records hold every packet a `recv` of either thread returned and every packet a `send` accepted, in order |
| TeardownPackets.MainQueueIsFifo | Server/ConnectedClient.h:54 | over every run the main queue is everything in it or queued since, in order, less one packet at the front for each packet put away or drained |
| TeardownPackets.OnlyQueuedIsSent | Server/ConnectedClient.cpp:229-248 | in every run after `createThreads`, nothing is sent or waits to be sent that was not queued before or during the run |
| TeardownPackets.HandlingOutcome | Server/ConnectedClient.cpp:160-176 | from the start of `handlePacketOut` to its return, in any interleaving, it reports success exactly when the packet was sent and, if it asks for an ACK, the sender then received any packet |
| TeardownPackets.NoAckOnceStopped | Server/ConnectedClient.cpp:280-297 | once the client is not running, a call of `handlePacketOut` that asks for an ACK never reaches `recv` and fails |
| TeardownPackets.AnyPacketConfirms | Server/ConnectedClient.cpp:114-118 | right after `createThreads` with one packet that asks for an ACK there is, for every packet that may arrive, a run in which it confirms the one sent |
| TeardownPackets.ConfirmedWasSent | Server/ConnectedClient.cpp:160-176 | in every run a packet put away as confirmed is the last one sent |
| TeardownPackets.SyncHoldsTheUnconfirmed | Server/ConnectedClient.cpp:229-248 | in every run up to the moment the threads are stopped, the sync queue has gained exactly the main packets that failed and lost exactly the sync packets that did not |
| TeardownPackets.EveryPassIsComplete | Server/ConnectedClient.cpp:240-250 | in every run, whenever the sender goes to sleep the waiting packets are exactly those that failed in that pass |
| TeardownPackets.OnlyTheLastIsSent | Server/ConnectedClient.cpp:229-238 | of a main queue nobody adds to, only the last packet is ever handled |
| TeardownPackets.TheLastIsHandledForEach | Server/ConnectedClient.cpp:229-238 | when the sender has emptied such a queue, it has handled the last packet once for each packet that was queued |
| TeardownPackets.EveryPacketHandledIffAllAlike | Server/ConnectedClient.cpp:229-238 | every queued packet gets its turn exactly when all of them are the same |
| TeardownPackets.FirstPacketIsLost | Server/ConnectedClient.cpp:229-238 | right after `createThreads` with two different packets queued there is a run in which every `send` works, the second is sent twice, and the first is gone from both queues unsent |
| Cleaning.SweepSettles | Server/ConnectedClient.cpp:8-39 | with `started` and `disconnected` opposite, a sweep disconnects exactly the clients neither running nor disconnected, keeps them opposite, and leaves nothing for a second sweep |
| Cleaning.SweepFindsTheLost | Server/Cleaner.cpp:101-113 | in every run after `createThreads`, while no teardown is under way, the client is settled, and the sweep picks it exactly when `isRunning()` is false and it is not disconnected yet |
| Cleaning.ConnectedClient.CreateThreads | Server/ConnectedClient.cpp:32-39 | `started` and `disconnected` are opposite afterwards |
| Cleaning.ConnectedClient.Disconnect | Server/ConnectedClient.cpp:73-102 | returns true exactly on a started client that is not disconnected, and then resets and empties it |
| Cleaning.DisconnectAgrees | Server/ConnectedClient.cpp:73-102 | in every run after `createThreads` in which `disconnect` returns true and nothing is queued after its drain, the client of the state machine looks as the cleaner's `disconnect` leaves it |
| Cleaning.Server.CleanInactiveClients | Server/Cleaner.cpp:95-130 | visits each client once although it erases while iterating; counts and disconnects exactly the inactive ones; erases exactly their entries in aggressive mode and none otherwise |

## Left out

- Sockets, Winsock, polling, clocks, thread creation, sleeping, logging and console input: their results are inputs of the model.
- Move operations and default construction of the iterator and the streambufs, copies that share state, and the get area and `underflow` of `basic_socket_streambuf`.
- `basic_socket_streambuf::connect` and the error code it keeps.
- `dynamic_string_buffer`: its DynamicBuffer_v1 code is that of `dynamic_vector_buffer`.
- The DynamicBuffer_v2 operations `grow`, `shrink` and `data(pos, n)`, and a dynamic buffer over storage already longer than its maximum.
- Streambuf.BasicStreambuf.Run: does not model what operations do after a cast or a wrapping sum has moved a pointer out of its buffer, nor buffers in the upper half of the address space.
- BuffersIteration.BuffersIterator.Advance: does not model distances outside `ptrdiff_t`; moves out of range, which the source only asserts against, are preconditions.
- BufferCopying.CopyManyToManyBounded: does not model copies whose written bytes overlap, which the source forbids.
- SocketStreambuf.SocketOutput.SendAll: does not model a loop that never returns because the socket is always about to be ready; the environment of a call is finite.
- TeardownPackets.PacketsAreRecorded: does not model two threads growing one vector at the same instant, nor one thread receiving between another's `recv` and its `push_back`; packets count as received in the order in which they are recorded.
- Cleaning.Server.CleanInactiveClients: does not model the mutex, the log lines or a mode that changes during the sweep.
- TeardownEnds.LockedTeardownFinishes: does not model the mutex itself, nor the early return of `Server::send` that leaves it locked.
- Packet layout, ACK matching, handshakes, authorisation, the accept loop, the command loops and the client program.
