# Verified models of libev and libevent

The repository vendors two event libraries, libev and libevent, under
`core/src/main/jni`. This project models the parts of their C code that hold real data
structures and protocols, and proves what their comments, assertions and documentation
promise of them. `dafny verify dfyconfig.toml` checks the whole project.

What is modelled, by module:

* `Common` - options, minima and remainders, for the rest.
* `Bytes`, `Evbuffers`, `EvbufferQueue`, `EvbufferMove`, `EvbufferGaps`, `EvbufferPullup`,
  `EvbufferSearch`, `EvbufferLines`, `EvbufferExpand`, `EvbufferRead` - libevent's byte
  queue. Chains and buffers are objects linked by `next`, with misalignment, free space and
  the second-level pointer `last_with_datap`. The abstract value of a buffer is one flat
  sequence of bytes, and every operation is proved to be an operation on that sequence which keeps the
  representation invariant of `evbuffer-internal.h`. The pointer to a pointer is kept as
  the chain that owns the `next` field, with null for the buffer's own `first`.
* `TagCodec`, `Tagging` - the tagged wire format: nibble-packed integers, base-128 tags,
  length-prefixed records. `TagCodec` says what the format is and proves the round trips;
  `Tagging` has the loops, which work on evbuffers. The comment at
  `event_tagging.c:91` calls the nibbles big-endian, and the example at line 84 has a tag's
  high bits first; the code writes the least significant first in both, and the model
  follows the code.
* `Watchers`, `TimerHeap`, `TimerSet` - libev's 4-ary timer heap with cached expiry times
  and back-indices, the timers on it, and their expiry. Time stamps are integers here: a
  count of some fixed unit.
* `Periodics` - the next time of a periodic watcher, over real numbers.
* `PendingQueue` - the prioritised queue of pending watchers, drained while the callbacks
  feed, stop and drain again, allocate watchers and call `ev_once`. What callbacks do is
  a parameter, a script, about which nothing is assumed. The queue is refined to a table
  of what is due, and a history of feeds, stops and calls is proved lawful and in order.
* `FdChanges` - the deferred list of changed file descriptors and the epoll backend it is
  pushed to, against a model of the kernel: `epoll_ctl` with its error codes, and `close`
  and `open` at any time.
* `IoEvents` - the two put together: starting, stopping and killing io watchers, and
  delivering events to them, on the table of fds and on the pending queue. Where the source
  alternates between the two, as in `fd_kill`, the model does its part on the table first
  and its part on the queue then; neither reads what the other writes.
* `PollSet` - the poll backend's dense array and its index.
* `Wakeup` - async watchers and signals waking a loop that is about to block, as atomic
  steps of any number of senders and one loop, in any interleaving.
* `TokenBucket`, `Suspension` - the rate limiter: refill in machine arithmetic, how much
  a bucket lets through, and how bufferevents and groups of them are suspended and
  resumed.
* `Pair` - bufferevent pairs, as a client of the evbuffer.
* `Arc4` - the ARC4 generator and its bounded numbers.

Findings worth knowing:

* `evbuffer_remove_buffer` has each buffer's `last_with_datap` right after moving whole
  chains exactly when those chains have no gap in the wrong place
  (`EvbufferMove.SourceExact`, `EvbufferMove.TargetExact`). Buffers without a gap always
  meet it, and adding, prepending, removing, draining and moving bytes make none. But
  `evbuffer_prepend_buffer` of a buffer that has an empty chain at its end makes one:
  `EvbufferGaps.MoveAcrossGap` does that, and moves across it. And prepending nothing to a
  buffer of two empty chains turns the first so that it has no room behind, and the next
  bytes committed stand behind it: `EvbufferGaps.MoveBehindGap` takes a byte of them.
* `evbuffer_commit_space` of one vector leaves `last_with_datap` right if and only if no
  empty chain but the first looked at is passed over (`EvbufferExpand.CommitLast`).
* `decode_tag_internal` reads a sixth byte, one more than it has made contiguous, before it
  refuses a tag that is too long. Whatever that byte is, the result is the same
  (`Tagging.DecodeTagBytes`).
* The refill of a bucket above its maximum, as a refund can leave it, comes down to the
  maximum only in a corner case, and may overflow (`TokenBucket.RefillAboveMaximum`,
  `TokenBucket.RefillOverflows`).
* A group with a minimum share of zero is resumed while it is exhausted, when it has
  exactly no token (`Suspension.Group.RefillCallback`); `Suspension.ResumedTooEarly` is
  such a group.
* A flush of a pair below the reader's high watermark only fills it up to the watermark; a
  second flush moves the rest (`Pair.FlushEmpties`).
* `arc4_addrandom` leaves the index one before where it was, not where it was
  (`Arc4.Generator.AddRandom`).
* The last comparison on the slow path of `downheap` cannot succeed: with four children
  the fast path is taken (asserted in `TimerHeap.FindMinChild`).

## Model

| member | source | states |
|---|---|---|
| Evbuffers.ChainNew | core/src/main/jni/libevent/buffer.c:156-193 | a new chain is empty and has the room asked for, rounded up with its header to 1024 times a power of two, and to no larger one; it fails exactly beyond the largest chain |
| Evbuffers.Chain.Align | core/src/main/jni/libevent/buffer.c:1903-1911 | moving the bytes to the start of the memory keeps them |
| Evbuffers.Evbuffer.FirstVictim | core/src/main/jni/libevent/buffer.c:289-305 | the scan from last_with_datap finds the first of the trailing empty chains |
| Evbuffers.Evbuffer.FreeTrailingEmptyChains | core/src/main/jni/libevent/buffer.c:289-305 | cuts off exactly the empty chains behind the last one with data, and returns the link that named the first of them |
| Evbuffers.Evbuffer.ChainInsert | core/src/main/jni/libevent/buffer.c:308-326 | appends a chain's bytes and leaves last, last_with_datap and the length right |
| Evbuffers.Evbuffer.Account | core/src/main/jni/libevent/buffer.c:455-531 | after every change the callbacks are told just what was added and deleted, against the size they know: what they were told is exactly how the length came about |
| Evbuffers.Evbuffer.AddBehind | core/src/main/jni/libevent/buffer.c:1752-1811 | behind a chain the data go into its room, or into that after realigning it, when it is less than half full of at most 2048 bytes; just otherwise a new chain is made |
| Evbuffers.Evbuffer.Add | core/src/main/jni/libevent/buffer.c:1723-1817 | the contents are the old contents and the data behind them, through realigning, growing and splitting over two chains, and the callbacks are told of just that; fails without effect exactly on overflow |
| EvbufferQueue.Drain | core/src/main/jni/libevent/buffer.c:1096-1161 | drops the first bytes, all if there are fewer, keeps the invariant whichever chains go, and tells the callbacks of just that many |
| EvbufferQueue.Prepend | core/src/main/jni/libevent/buffer.c:1820-1899 | the data stand in front of the old contents, filled backwards into misaligned space and new chains |
| EvbufferQueue.CopyoutFrom | core/src/main/jni/libevent/buffer.c:1185-1252 | from any position, copies the bytes of the flat sequence across chains |
| EvbufferQueue.Remove | core/src/main/jni/libevent/buffer.c:1165-1176 | what is returned and what is left are the old contents, cut at the smaller of the two lengths |
| EvbufferMove.AddBuffer | core/src/main/jni/libevent/buffer.c:961-1004 | the target gets the source's bytes behind its own, the source is empty, both invariants hold, no gap arises where there was none, and the callbacks of both are told; a buffer given twice is left alone |
| EvbufferMove.PrependBuffer | core/src/main/jni/libevent/buffer.c:1050-1093 | the target gets the source's bytes in front of its own, the source is empty, both invariants hold, and says just when the result has no gap; a buffer given twice is left alone |
| EvbufferMove.AdvanceExact | core/src/main/jni/libevent/buffer.c:702-716 | walking on over chains with data finds the last chain with data if and only if no empty chain hides one behind it |
| EvbufferMove.AdvanceLastWithData | core/src/main/jni/libevent/buffer.c:702-716 | the loop computes exactly the advance that AdvanceExact is about |
| EvbufferMove.SourceExact | core/src/main/jni/libevent/buffer.c:1254-1342 | after whole chains were taken the source's last_with_datap is right if and only if some chain before the last with data held bytes, or there was none before it |
| EvbufferMove.TargetExact | core/src/main/jni/libevent/buffer.c:1254-1342 | the target's last_with_datap is right if and only if no empty chain among those moved has data behind it |
| EvbufferMove.TakeWholeChains | core/src/main/jni/libevent/buffer.c:1254-1342 | the theft of whole chains moves their bytes, and each buffer's last_with_datap is right if and only if its condition holds |
| EvbufferMove.RemoveBuffer | core/src/main/jni/libevent/buffer.c:1254-1342 | moves exactly the smaller of the two lengths, in order, from the front of one buffer to the end of the other, by whole chains and one partial copy, keeps both invariants, makes no gap, and tells the callbacks of both just that; a buffer given twice is left alone |
| EvbufferMove.GaplessMovable | core/src/main/jni/libevent/buffer.c:1254-1342 | a source without empty chains before its last one with data meets the conditions for every amount and target |
| EvbufferGaps.MoveAcrossGap | core/src/main/jni/libevent/buffer.c:1254-1342 | two buffers made by the modelled operations alone, of which the target has lost track of its last chain with data after a move, as TargetExact says |
| EvbufferGaps.LeadingGap | core/src/main/jni/libevent/buffer.c:719-744 | a buffer made by the modelled operations alone whose data stand behind an empty chain |
| EvbufferGaps.MoveBehindGap | core/src/main/jni/libevent/buffer.c:1254-1342 | a byte is moved out of such a buffer, which loses track of its own last chain with data, as SourceExact says |
| EvbufferPullup.Pullup | core/src/main/jni/libevent/buffer.c:1345-1454 | the contents stay; the first bytes asked for lie together in the first chain; null exactly when there are not so many, or none asked for, or a chain cannot hold them |
| EvbufferSearch.PtrSet | core/src/main/jni/libevent/buffer.c:2610-2659 | the result is the chain and offset of the flat position; refused exactly past the end |
| EvbufferSearch.PtrSubtract | core/src/main/jni/libevent/buffer.c:2590-2607 | the position moves back in the flat sequence; refused exactly before the start |
| EvbufferSearch.PtrMemcmp | core/src/main/jni/libevent/buffer.c:2666-2699 | comparing chain by chain finds equality exactly when the flat bytes at the position are the pattern |
| EvbufferSearch.SearchRange | core/src/main/jni/libevent/buffer.c:2708-2769 | the result is the least position from the start on where the flat bytes match and end by the bound; none is missed, for any split into chains |
| EvbufferLines.EolUnique | core/src/main/jni/libevent/buffer.c:1590-1677 | in each style there is at most one first line end |
| EvbufferLines.EolShape | core/src/main/jni/libevent/buffer.c:1680-1716 | contents are line, terminator and rest: the line has no stop byte of the style (10, 13 or 0), the terminator is of the style, and for EOL_ANY it is the whole run |
| EvbufferLines.FindEolChar | core/src/main/jni/libevent/buffer.c:1492-1513 | looking 128 bytes at a time for CR and LF finds the first of either |
| EvbufferLines.FindByte | core/src/main/jni/libevent/buffer.c:1467-1533 | the first such byte from a position on, across chains |
| EvbufferLines.Strspn | core/src/main/jni/libevent/buffer.c:1538-1573 | the length of the maximal run of CR and LF, across chains |
| EvbufferLines.SearchEol | core/src/main/jni/libevent/buffer.c:1590-1677 | finds the first line end of the style, or there is none |
| EvbufferLines.Readln | core/src/main/jni/libevent/buffer.c:1680-1716 | returns the bytes before the first line end and drains them with it; without one nothing changes |
| EvbufferExpand.ExpandSinglechain | core/src/main/jni/libevent/buffer.c:1928-2035 | afterwards a chain at or behind the last one with data has the room asked for, and no byte has changed; nothing has changed at all if the next chain had it |
| EvbufferExpand.RoomIsBehind | core/src/main/jni/libevent/buffer.c:1928-2035 | bytes written into that room are appended to the whole |
| EvbufferExpand.MakeRoom | core/src/main/jni/libevent/buffer.c:1968-2024 | a chain that has not the room is realigned when that is cheap and gives it, left as it is when a larger copy of it costs too much or wins too little, and copied otherwise: which of the three, exactly |
| EvbufferExpand.CommitLast | core/src/main/jni/libevent/buffer.c:718-783 | for one vector, in the last chain: the bytes are appended, and the invariant holds again if and only if nothing was committed or no empty chain but the first looked at was passed over |
| EvbufferRead.ScanRoom | core/src/main/jni/libevent/buffer.c:2059-2089 | the scan adds up the space in at most n chains, realigning empty ones, and stops when it is enough or the chains are used up |
| EvbufferRead.Replace | core/src/main/jni/libevent/buffer.c:2106-2146 | the empty chains at the end give way to one for what the last chain with data cannot take |
| EvbufferRead.ExpandFast | core/src/main/jni/libevent/buffer.c:2037-2147 | afterwards the space asked for lies in at most n chains from the last one with data on; no byte has changed; at most one chain is added, and none freed if there were fewer than n; fails only beyond the largest chain |
| EvbufferRead.SetupVecs | core/src/main/jni/libevent/buffer.c:2214-2250 | the vectors are free space of consecutive chains, no more of them than there is place for, and hold at least what is asked for, exactly that if wanted |
| EvbufferRead.Scatter | core/src/main/jni/libevent/buffer.c:2294-2335 | bytes scattered over the vectors stand at the start of the free space of consecutive chains, each filled up before the next is begun, and nothing that the buffer holds has changed |
| EvbufferRead.Fill | core/src/main/jni/libevent/buffer.c:2366-2387 | advancing `off` over what the kernel put behind it appends just those bytes, over as many chains as they take, and last_with_datap ends up at the last of these |
| EvbufferRead.Receive | core/src/main/jni/libevent/buffer.c:2334-2387 | scattering over the vectors and then advancing along the chains agree: the buffer has just the bytes delivered behind its own, on the same chains |
| EvbufferRead.Read | core/src/main/jni/libevent/buffer.c:2270-2400 | whatever the kernel delivers of the amount asked for is appended to the contents, and the callbacks are told of just that; -1 is returned, with nothing appended, if and only if it reports an error; with fewer than four chains from last_with_datap on none is freed |
| EvbufferRead.Amount | core/src/main/jni/libevent/buffer.c:2279-2295 | as much is asked for as the caller wants of what the socket says it has, at most 4096, or of 4096 if that is unknown or more; nothing only if nothing is wanted |
| TagCodec.IntRoundTrip | core/src/main/jni/libevent/event_tagging.c:117-165 | decoding an encoded integer followed by anything gives the integer and its encoded length, in 32 and in 64 bits |
| TagCodec.IntFormat | core/src/main/jni/libevent/event_tagging.c:117-138 | the bytes of an integer: the number of digits less one, without leading zeros, then the digits, the least significant first, two to a byte |
| TagCodec.DecodedInt | core/src/main/jni/libevent/event_tagging.c:315-353 | just those bytes are refused that announce more digits than the type has or than are there, and the value has the digits announced, wherever the bytes came from |
| TagCodec.DecodedIntRange | core/src/main/jni/libevent/event_tagging.c:315-393 | whatever is decoded fits the type it is decoded into |
| TagCodec.TagRoundTrip | core/src/main/jni/libevent/event_tagging.c:174-242 | decoding an encoded 32-bit tag followed by anything gives it back with its length |
| TagCodec.TagFormat | core/src/main/jni/libevent/event_tagging.c:174-194 | the bytes of a tag: seven bits in each, the least significant first, without leading zeros, the high bit on all but the last |
| TagCodec.NotAsDocumented | core/src/main/jni/libevent/event_tagging.c:80-85 | the tag that the head of the file gives as an example is encoded in other bytes than it says |
| TagCodec.DecodedTag | core/src/main/jni/libevent/event_tagging.c:197-242 | just those bytes are accepted that end in at most five, with at most 32 bits; leading zeros are |
| TagCodec.DecodedTagBits | core/src/main/jni/libevent/event_tagging.c:197-242 | the value has the seven bits of each byte in its place |
| TagCodec.DecodedTagRange | core/src/main/jni/libevent/event_tagging.c:197-242 | a decoded tag fits 32 bits and five bytes |
| TagCodec.RecordRoundTrip | core/src/main/jni/libevent/event_tagging.c:256-263 | unmarshalling a marshalled record gives it back, and what follows it |
| TagCodec.ListRoundTrip | core/src/main/jni/libevent/event_tagging.c:256-263 | the concatenation of any list of marshalled records is read back as that list |
| TagCodec.PeekAgrees | core/src/main/jni/libevent/event_tagging.c:402-417 | a peek at the header announces just the bytes that unmarshalling takes |
| TagCodec.IntRecordRoundTrip | core/src/main/jni/libevent/event_tagging.c:277-297 | an integer record is read back as the integer |
| Tagging.FillNibbles | core/src/main/jni/libevent/event_tagging.c:117-138 | the loop fills the array with the number's digits, two to a byte |
| Tagging.EncodeIntInternal | core/src/main/jni/libevent/event_tagging.c:117-150 | the loop computes the encoding of TagCodec |
| Tagging.DecodeIntInternal | core/src/main/jni/libevent/event_tagging.c:315-374 | the loop computes the decoding of TagCodec from any place in a buffer, and leaves the contents |
| Tagging.EncodeTagBytes | core/src/main/jni/libevent/event_tagging.c:174-194 | the loop computes the tag's encoding |
| Tagging.DecodeTagBytes | core/src/main/jni/libevent/event_tagging.c:209-230 | the loop computes the decoding from the five bytes that are contiguous, whatever it reads beyond them |
| Tagging.DecodeTagInternal | core/src/main/jni/libevent/event_tagging.c:197-242 | the loop computes the tag's decoding, and drains just its bytes when asked to |
| Tagging.UnmarshalHeader | core/src/main/jni/libevent/event_tagging.c:438-451 | result and rest of the buffer for every input, malformed or short, and with lengths that turn negative as an int |
| Tagging.HeaderOfRecord | core/src/main/jni/libevent/event_tagging.c:438-451 | for payloads below 2^31 bytes it is the header of the record that TagCodec reads |
| Tagging.EvtagMarshal | core/src/main/jni/libevent/event_tagging.c:256-263 | appends the marshalled record |
| Tagging.EvtagMarshalInt | core/src/main/jni/libevent/event_tagging.c:277-297 | appends the marshalled integer record |
| Tagging.EvtagUnmarshal | core/src/main/jni/libevent/event_tagging.c:466-480 | the payload moves from one buffer to the end of the other; on a bad header nothing is moved |
| Tagging.EvtagConsume | core/src/main/jni/libevent/event_tagging.c:453-464 | drains the record at the front |
| Tagging.EvtagPeekLength | core/src/main/jni/libevent/event_tagging.c:401-417 | the record's length, and the contents stay |
| Tagging.ConsumeDrainsPeek | core/src/main/jni/libevent/event_tagging.c:401-464 | consuming drains exactly the length peeked at, when the payload is there and below 2^31 bytes |
| Tagging.EvtagUnmarshalInt | core/src/main/jni/libevent/event_tagging.c:484-536 | reads the integer record with the tag asked for, or fails; for every input it says what is left in the buffer |
| TimerHeap.ChildrenOf | core/src/main/jni/libev/ev.c:2254-2257 | the parent and the child formulas are inverse to each other, the root apart |
| TimerHeap.RootIsLeast | core/src/main/jni/libev/ev.c:2242-2257 | the root expires no later than any entry |
| TimerHeap.UpOrders | core/src/main/jni/libev/ev.c:2339-2359 | moving up an entry that is only too early restores the heap order |
| TimerHeap.UpKeepsEntries | core/src/main/jni/libev/ev.c:2339-2359 | moving up loses and adds no entry, and touches nothing below |
| TimerHeap.DownOrders | core/src/main/jni/libev/ev.c:2259-2301 | moving down an entry that is only too late restores the heap order |
| TimerHeap.DownKeepsEntries | core/src/main/jni/libev/ev.c:2259-2301 | moving down loses and adds no entry |
| TimerHeap.AdjustOrders | core/src/main/jni/libev/ev.c:2361-2369 | whatever entry is put anywhere, adjusting restores the order and keeps the entries |
| TimerHeap.ReheapedOrders | core/src/main/jni/libev/ev.c:2371-2381 | arbitrary contents become a heap of the same entries |
| TimerHeap.UpHeap | core/src/main/jni/libev/ev.c:2339-2359 | the loop with a hole computes the move up, and every watcher's back-index is its position |
| TimerHeap.FindMinChild | core/src/main/jni/libev/ev.c:2270-2289 | the unrolled comparisons, fast path and slow path, find the first of the earliest children |
| TimerHeap.DownHeap | core/src/main/jni/libev/ev.c:2259-2301 | the loop with a hole computes the move down, and every back-index is right |
| TimerHeap.AdjustHeap | core/src/main/jni/libev/ev.c:2361-2369 | computes the adjustment, and every back-index is right |
| TimerHeap.Reheap | core/src/main/jni/libev/ev.c:2371-2381 | computes the heap in place, and every back-index is right |
| TimerSet.Timers.Start | core/src/main/jni/libev/ev.c:3913-3936 | a stopped timer joins the table of expiry times at now plus its delay, the heap stays a heap tied to the table; a started one is left alone |
| TimerSet.Timers.Stop | core/src/main/jni/libev/ev.c:3938-3967 | a started timer leaves the table, what is due of it is cleared, its time becomes relative again |
| TimerSet.Timers.Again | core/src/main/jni/libev/ev.c:3969-3995 | afterwards the timer expires one repeat from now, or is stopped if it does not repeat, with its time relative again, whether it was started or not; what was due of it is cleared |
| TimerSet.Timers.FireRoot | core/src/main/jni/libev/ev.c:3364-3385 | one round takes the earliest timer and re-arms it for no earlier than now, or stops it |
| TimerSet.AllFired | core/src/main/jni/libev/ev.c:3354-3390 | when the rounds have left nothing expired, exactly the expired have fired and the rest of the table is as it was |
| TimerSet.Timers.TimersReify | core/src/main/jni/libev/ev.c:3354-3390 | terminates; fires exactly the expired timers, each once, in order of expiry; none is left below now; they are queued in reverse |
| TimerSet.Timers.ReifyAndInvoke | core/src/main/jni/libev/ev.c:3354-3390 | whatever the callbacks do: the history up to n has all the expired timers due beside what was due before; from there on each is called, unless a callback stops it, of two of one priority that were not pending before the one that expired no later is called first, and the callbacks do what their script says |
| Periodics.Recalc | core/src/main/jni/libev/ev.c:3394-3418 | the loop ends at a time after now by at most one interval, and that is the next point of the grid from the offset on, or, for intervals below a 8192th of a second, of the grid from the last such fraction on |
| PendingQueue.DueWasFed | core/src/main/jni/libev/ev.c:2000-2018 | what is due was fed, and neither stopped nor called since |
| PendingQueue.NoCallUnlessFed | core/src/main/jni/libev/ev.c:3812-3838 | in a lawful history a watcher that was stopped or called is not called again until it is fed |
| PendingQueue.NotCalledSinceStop | core/src/main/jni/libev/ev.c:3812-3838 | in a lawful history a watcher that was stopped is not called but for what it was fed since |
| PendingQueue.CalledInPriority | core/src/main/jni/libev/ev.c:3306-3327 | in a lawful history nobody who is due when a callback is entered has a higher priority than its watcher, or than one of the two of an ev_once record |
| PendingQueue.NoOnceUnlessFed | core/src/main/jni/libev/ev.c:4974-5003 | the callback of an ev_once record is called only if one of its two watchers was fed and not taken since |
| PendingQueue.DueIsCalled | core/src/main/jni/libev/ev.c:3306-3327 | what was due and is not any more, though nobody stopped it, was called: a drain drops nothing |
| PendingQueue.BehindComesFirst | core/src/main/jni/libev/ev.c:3316-3323 | in a history in order, of two watchers that were due at one priority the one with the later slot is called or stopped before the other is called for what was due then |
| PendingQueue.DueIsTaken | core/src/main/jni/libev/ev.c:3306-3327 | what was due and is not any more was called or stopped |
| PendingQueue.Pendings.Feed | core/src/main/jni/libev/ev.c:2000-2018 | adds the events to what is due, in the watcher's one slot; a new slot is the last of its priority |
| PendingQueue.Pendings.ClearPending | core/src/main/jni/libev/ev.c:3812-3838 | takes away what is due of the watcher and returns it |
| PendingQueue.Pendings.Enter | core/src/main/jni/libev/ev.c:3316-3323 | enters a callback only when no watcher of a higher priority is due, with all its events, and keeps the history lawful |
| PendingQueue.Pendings.RunOnce | core/src/main/jni/libev/ev.c:4974-5003 | the callback of an ev_once record gets the events of both its watchers, and no slot refers to the freed record |
| PendingQueue.Pendings.Perform | core/src/main/jni/libev/ev.c:2000-2033 | one thing a callback does: the history tells just of it if its watcher is live, nothing happens otherwise, and what it allocates is live, new and of the clamped priority |
| PendingQueue.Pendings.RunCallback | core/src/main/jni/libev/ev.c:3306-3327 | whatever a callback feeds, stops, allocates or drains, it does all of it in order, those it calls do what their script says, and the history tells of every deed on a live watcher; the queue stays sound and linked, nothing waits above the priority in hand, and the history stays lawful and in order |
| PendingQueue.Pendings.InvokePending | core/src/main/jni/libev/ev.c:3306-3327 | for every script of callbacks: terminates with all queues empty and a lawful history, in which no watcher due has a higher priority than one that is called, all that was due was called or stopped, in order of the slots from the back, no ev_once callback runs twice, and nothing is cleared but by callbacks that stop it; the i-th callback entered does just what the script has for it, and no more of the script is used than callbacks were entered |
| PendingQueue.Pendings.FeedReverseDone | core/src/main/jni/libev/ev.c:2027-2033 | feeds each watcher of the list once, and those that get new slots get them in reverse order |
| PendingQueue.FedFromIs | core/src/main/jni/libev/ev.c:2027-2033 | each watcher of the list is due with the new events beside its old ones, and nothing else has changed |
| FdChanges.UnionIs | core/src/main/jni/libev/ev.c:2124-2127 | the mask of an fd is what some started watcher on it waits for |
| FdChanges.EpollLoop.FdChange | core/src/main/jni/libev/ev.c:2141-2154 | an fd is on the list of changes exactly once if and only if it has a reify flag |
| FdChanges.EpollLoop.ReifyOne | core/src/main/jni/libev/ev.c:2110-2136 | one change: the mask is what the watchers wait for, and the backend is called only if it is another one or the fd was set anew |
| FdChanges.EpollLoop.Start | core/src/main/jni/libev/ev.c:3864-3891 | the watcher joins its fd's list, and the list of changes and the cache stay right |
| FdChanges.EpollLoop.Stop | core/src/main/jni/libev/ev.c:3893-3911 | the watcher leaves its fd's list, and the list of changes and the cache stay right |
| FdChanges.EpollLoop.FdKill | core/src/main/jni/libev/ev.c:2156-2167 | every watcher of the fd, and no other, is taken off its list and recorded, in the order of the list |
| FdChanges.EpollLoop.Register | core/src/main/jni/libev/ev_epoll.c:93-131 | the system calls, with the errors that are handled, leave the kernel with the new mask and generation, or with what it had |
| FdChanges.EpollLoop.EpollModify | core/src/main/jni/libev/ev_epoll.c:70-139 | the cache agrees with the kernel afterwards, and the generation has changed just if the kernel took something new or refused the fd for good; only an fd that is closed, or that the kernel has no room for, is given up |
| FdChanges.EpollLoop.FdReify | core/src/main/jni/libev/ev.c:2079-2139 | terminates although fds are appended while it runs; the list is empty, every mask is the union of its watchers' masks, every watcher is started still or was killed, and only watchers of unusable fds were killed |
| FdChanges.EpollLoop.AllWatched | core/src/main/jni/libev/ev_epoll.c:70-139 | after that every fd somebody waits for is registered with just the mask waited for and the present generation, or is open but not for epoll and on the list of those; an fd reopened without ev_io_set is not registered |
| FdChanges.EpollLoop.StartedIsWatched | core/src/main/jni/libev/ev_epoll.c:70-139 | so the events of every started watcher are among those the kernel watches on its fd, or the fd is on the list of those always ready |
| FdChanges.EpollLoop.FdEvent | core/src/main/jni/libev/ev.c:2046-2071 | reports for each watcher the part it waits for, in turn, and nothing on an fd with a pending change |
| FdChanges.MatchingIs | core/src/main/jni/libev/ev.c:2046-2061 | just the watchers of the fd are fed that wait for something of what happened, each that part |
| FdChanges.EachOnItsOwn | core/src/main/jni/libev/ev_epoll.c:163-211 | when no fd is reported twice, what a batch of events feeds is what each of them would feed alone |
| FdChanges.FedExactly | core/src/main/jni/libev/ev_epoll.c:163-211 | so a watcher is fed reading if and only if it waits for that and some event of its fd's present generation, wanted or known to the kernel, has EPOLLIN, EPOLLERR or EPOLLHUP, and no change of the fd is pending; writing likewise with EPOLLOUT |
| FdChanges.LaterIs | core/src/main/jni/libev/ev_epoll.c:90-139 | the generation of a registration is another one for the next 2 to the 32 less one, and taken back when the registration was not made |
| FdChanges.OutdatedFeedsNobody | core/src/main/jni/libev/ev_epoll.c:178-183 | so an event of a registration before that feeds nobody |
| FdChanges.Got | core/src/main/jni/libev/ev_epoll.c:170-171 | reading is reported by EPOLLIN, EPOLLERR or EPOLLHUP, writing by EPOLLOUT, EPOLLERR or EPOLLHUP |
| FdChanges.EpollLoop.PollOne | core/src/main/jni/libev/ev_epoll.c:142-211 | an event of an earlier generation is dropped and the kernel set is to be rebuilt; an unwanted one corrects the kernel; otherwise the watchers of the fd are fed their parts, and the cache stays right |
| FdChanges.EpollLoop.PollEperms | core/src/main/jni/libev/ev_epoll.c:222-236 | every fd on the list that epoll cannot handle and that somebody waits for is fed as ready, the last first, and just those stay on the list, although entries are swapped out while it is walked |
| FdChanges.SynthesizedIs | core/src/main/jni/libev/ev_epoll.c:222-236 | just the watchers of such fds are fed, each all that it waits for |
| FdChanges.EpollLoop.EpollPoll | core/src/main/jni/libev/ev_epoll.c:142-236 | what a poll feeds is what its events deliver, in turn, each seen after the corrections of those before it, and then what is made up for the fds epoll cannot handle; on the list of those are left only such that somebody waits for |
| FdChanges.EpollLoop.EpollFork | core/src/main/jni/libev/ev_epoll.c:272-284 | the new epoll set is empty and every fd that had a mask will be registered again |
| FdChanges.EpollLoop.Close | core/src/main/jni/libev/ev_epoll.c:46-64 | a silent close keeps the cache's invariant, and which fds it leaves unknown to the kernel |
| IoEvents.IoLoop.Start | core/src/main/jni/libev/ev.c:3864-3891 | the watcher heads the list of its fd with its mask, the change is noted, and of what is due nothing changes; a started one is left alone |
| IoEvents.IoLoop.Stop | core/src/main/jni/libev/ev.c:3893-3911 | the watcher is taken off the list of its fd, the change is noted, and nothing is due of it |
| IoEvents.IoLoop.FdReify | core/src/main/jni/libev/ev.c:2079-2167 | every mask is the union of its watchers' masks; every watcher started before is started still or was killed, and those only of unusable fds; of the killed an error is due and nothing else, and of nobody else anything has changed |
| IoEvents.GoneTableIs | core/src/main/jni/libev/ev.c:2156-2167 | after fds were killed an error, reading and writing are due of each of their watchers and nothing else, and of the others what was due |
| IoEvents.IoLoop.Poll | core/src/main/jni/libev/ev_epoll.c:142-236 | to the pending queue are fed just the deliveries of the events, in turn, and what is made up for the always ready fds, all to started watchers; nothing is cleared or called |
| PollSet.NeedSize | core/src/main/jni/libev/ev.c:1937-1976 | the grown array has the old entries and the filler behind them |
| PollSet.Polls.Allocate | core/src/main/jni/libev/ev_poll.c:57-66 | a new fd gets the next place, and the two arrays stay inverse to each other |
| PollSet.Polls.Remove | core/src/main/jni/libev/ev_poll.c:74-84 | the last entry takes the place of the one removed, and the two arrays stay inverse to each other |
| PollSet.Polls.PollModify | core/src/main/jni/libev/ev_poll.c:52-87 | updates a map from fd to mask, of which the dense array is an exact picture |
| PollSet.Polls.Honest | core/src/main/jni/libev/ev_poll.c:52-57 | the early return is right for callers that describe the change truly |
| PollSet.Polls.Dense | core/src/main/jni/libev/ev_poll.c:42-87 | the prefix handed to poll has exactly the fds with a mask that is not empty, each once |
| Wakeup.StepKeeps | core/src/main/jni/libev/ev.c:2447-2560 | every atomic step of every sender and of the loop keeps the protocol's invariant |
| Wakeup.RunKeeps | core/src/main/jni/libev/ev.c:3640-3702 | so does every run |
| Wakeup.NoLostWakeup | core/src/main/jni/libev/ev.c:2447-2493 | when the loop may block in its backend and something is sent, the pipe is readable or a sender is still inside its call and about to wake the loop |
| Wakeup.BlockedSendersWrite | core/src/main/jni/libev/ev.c:2463-2492 | while the loop is blocked a sender that has found its flag unset does not return before something was written to the pipe, however many others run in between |
| Wakeup.DueIsFed | core/src/main/jni/libev/ev.c:2497-2560 | what a running callback is to feed it feeds before it ends, whatever senders do meanwhile |
| Wakeup.SentIsConsumed | core/src/main/jni/libev/ev.c:2497-2560 | everything sent before a callback began, with its flag set, is fed by that callback |
| Wakeup.SetItemCallsBack | core/src/main/jni/libev/ev.c:3684-3702 | after a poll, with no sender at work, something sent leads to the callback, or the pipe is readable |
| Wakeup.NextRoundFeeds | core/src/main/jni/libev/ev.c:3640-3702 | once all senders have returned, whatever is set is fed by the very next round of the loop, if the kernel reports a readable pipe |
| Wakeup.BlockedIsWoken | core/src/main/jni/libev/ev.c:2447-2560 | if something is set while the loop is blocked, the pipe is readable when the senders have returned, and when that is reported it is fed, whatever new senders do |
| Wakeup.ReportFeeds | core/src/main/jni/libev/ev.c:2497-2560 | from a poll that reports the pipe, whatever was set with its flag is fed before the loop is done, whatever senders do meanwhile |
| Wakeup.FedAtMostSent | core/src/main/jni/libev/ev.c:4956-4961 | nothing is fed more often than it was sent |
| Wakeup.NoneLost | core/src/main/jni/libev/ev.c:2497-2560 | no send is lost: over any run what was set or sent is set still, or was fed since |
| Wakeup.FedOnce | core/src/main/jni/libev/ev.c:2536-2560 | one test of a flag feeds each item once at most: only what the scan has still to come to is fed until the flag is tested again |
| Wakeup.ScanIsRaised | core/src/main/jni/libev/ev.c:2536-2560 | only items whose flag was set are scanned, and it is cleared first |
| Wakeup.NoNeedlessCall | core/src/main/jni/libev/ev.c:2497-2560 | the callback is entered only if, since it last reset the skip flag, the pipe was reported or a sender set that flag again |
| Wakeup.BlocksAgain | core/src/main/jni/libev/ev.c:3640-3702 | without such a reason the next round may block, just if it is asked to |
| Wakeup.AsleepIsDone | core/src/main/jni/libev/ev.c:3640-3702 | when the loop sleeps in its backend on an empty pipe and no sender is at work, nothing that was sent is left and no flag is set |
| Wakeup.AllIsFed | core/src/main/jni/libev/ev.c:3640-3702 | when it sleeps so, everything that was sent since the start has been fed |
| Wakeup.GoesToSleep | core/src/main/jni/libev/ev.c:3640-3702 | left alone the loop begins no more rounds without sleeping than there are bytes in the pipe and two |
| Wakeup.SleepsInTime | core/src/main/jni/libev/ev.c:3640-3702 | and takes no more steps for each of them than two for each signal and each async watcher and eleven others: no callback goes on for ever |
| Wakeup.SparesWrites | core/src/main/jni/libev/ev.c:2478-2492 | while the loop is not around its poll nobody decides to write to the pipe |
| Wakeup.Coalesces | core/src/main/jni/libev/ev.c:2463-2476 | as long as a flag is set whoever sends by it does nothing but look at it, so that any number of sends take one wake-up |
| Wakeup.WritesAtMostSends | core/src/main/jni/libev/ev.c:2463-2492 | over any run the pipe gets at most one byte for each sender |
| TokenBucket.RefillIsIdeal | core/src/main/jni/libevent/bufferevent_ratelim.c:73-111 | in machine arithmetic, for a limit not above the maximum, the guarded update is the smaller of the maximum and limit plus ticks times rate, without overflow |
| TokenBucket.RefillAboveMaximum | core/src/main/jni/libevent/bufferevent_ratelim.c:73-111 | for a limit above the maximum it is that if and only if the tokens to add reach across the unsigned range; otherwise they are just added |
| TokenBucket.RefillOverflows | core/src/main/jni/libevent/bufferevent_ratelim.c:73-111 | a bucket for which the update overflows |
| TokenBucket.ClockGoneOn | core/src/main/jni/libevent/bufferevent_ratelim.c:73-111 | when the clock has gone on by less than half of all tick numbers, each side has the tokens of just so many ticks more, up to its maximum |
| TokenBucket.ClockGoneBack | core/src/main/jni/libevent/bufferevent_ratelim.c:78-85 | when it stands still or has gone back the bucket stays as it is |
| TokenBucket.UpdatesCompose | core/src/main/jni/libevent/bufferevent_ratelim.c:73-111 | two updates do what one does at the later tick, also across a wrap-around of the tick number |
| TokenBucket.WindowBound | core/src/main/jni/libevent/bufferevent_ratelim.c:197-308 | in any run of transfers that respect the allowance, the bytes are at most the maximum plus the rate times the ticks that updates counted |
| TokenBucket.TicksElapsed | core/src/main/jni/libevent/bufferevent_ratelim.c:73-111 | when ticks do not go back, the ticks that updates count are those from the first to the last transfer, also across a wrap-around |
| TokenBucket.WindowOfTicks | core/src/main/jni/libevent/bufferevent_ratelim.c:197-308 | so the bytes let through between two ticks d apart are at most the maximum plus d times the rate |
| Suspension.Bev.Suspend | core/src/main/jni/libevent/bufferevent.c:66-76 | adds the reason; the direction is armed just if it is enabled and nothing suspends it |
| Suspension.Bev.Unsuspend | core/src/main/jni/libevent/bufferevent.c:78-88 | takes the reason away; the direction is armed just if it is enabled and nothing suspends it |
| Suspension.Bev.Enable | core/src/main/jni/libevent/bufferevent.c:459-480 | the last be_ops call for a direction was enable just if it is enabled and nothing suspends it |
| Suspension.Bev.Disable | core/src/main/jni/libevent/bufferevent.c:550-563 | the same for disable |
| Suspension.Bev.Decrement | core/src/main/jni/libevent/bufferevent_ratelim.c:272-346 | charging or refunding leaves a direction suspended for bandwidth if and only if its bucket is exhausted, and the refill event pending just while a direction is; other reasons and the other direction stay |
| Suspension.Bev.RefillCallback | core/src/main/jni/libevent/bufferevent_ratelim.c:393-439 | after the refill a direction is suspended for bandwidth if and only if its bucket is still exhausted, and the event is pending again just then; other reasons stay |
| Suspension.Bev.ServeAll | core/src/main/jni/libevent/bufferevent_ratelim.c:197-439 | a limited bufferevent that asks, transfers, is charged and refilled in any order, in both directions, lets through one way at most the maximum plus the rate times the ticks counted |
| Suspension.TraceAllowed | core/src/main/jni/libevent/bufferevent_ratelim.c:197-308 | no transfer of such a run exceeds what its bucket allows at that time, whatever goes the other way |
| Suspension.Bev.SetRateLimit | core/src/main/jni/libevent/bufferevent_ratelim.c:559-636 | who was not limited gets one tick's tokens of each rate, a new configuration only clips what is there, and the same one changes nothing; the suspensions for bandwidth and the refill event follow the bucket, and other reasons stay |
| Suspension.InitializedClips | core/src/main/jni/libevent/bufferevent_ratelim.c:48-71 | reinitialising gives no tokens, leaves no more than the new maximum, and keeps the tick |
| Suspension.Bev.ClearRateLimit | core/src/main/jni/libevent/bufferevent_ratelim.c:574-586 | without a configuration nothing is suspended for bandwidth and no refill is pending |
| Suspension.Group.SuspendAll | core/src/main/jni/libevent/bufferevent_ratelim.c:348-391 | every member that can be locked is suspended for the group in that direction, none in the other, and none is stuck |
| Suspension.Group.UnsuspendAll | core/src/main/jni/libevent/bufferevent_ratelim.c:460-524 | the walk from a random member visits each once; every member that can be locked is resumed in that direction, none in the other, and the group knows whether one was left over |
| Suspension.Group.Decrement | core/src/main/jni/libevent/bufferevent_ratelim.c:291-306 | the group is suspended if and only if it is exhausted, every member that can be locked is suspended with it or resumed, and no member is stuck |
| Suspension.Group.RefillCallback | core/src/main/jni/libevent/bufferevent_ratelim.c:526-557 | no member is stuck, and the group is left as it should be if and only if its minimum share is not zero or the refill leaves no side with exactly no token; just when a side stays suspended |
| Suspension.ResumedTooEarly | core/src/main/jni/libevent/bufferevent_ratelim.c:526-557 | a group that is exhausted and not suspended after its refill |
| Suspension.Group.Share | core/src/main/jni/libevent/bufferevent_ratelim.c:243-249 | a member's share is the largest amount that is within the minimum, or that the group has for each of its members |
| Suspension.Group.GetMax | core/src/main/jni/libevent/bufferevent_ratelim.c:197-258 | the largest amount within the member's own limit that is within the group's minimum, or that the group has for each of its members; a member that was missed is suspended here and gets nothing |
| Suspension.Group.AddMember | core/src/main/jni/libevent/bufferevent_ratelim.c:735-779 | a member that joins is suspended for the group if and only if the group is, and for nothing else that it was not |
| Suspension.Group.RemoveMember | core/src/main/jni/libevent/bufferevent_ratelim.c:781-809 | one that leaves is suspended for all that it was but the group |
| Pair.Pipe.Transfer | core/src/main/jni/libevent/bufferevent_pair.c:152-193 | exactly the share the watermark allows has moved, in order, from any state that a pair can be in; bytes taken, bytes in the input and bytes in the output are together what was written |
| Pair.ShareIsMost | core/src/main/jni/libevent/bufferevent_pair.c:160-177 | without a watermark, or in a flush that finds it reached, nothing is kept back; otherwise nothing moves past it, and something is kept back only when it is reached |
| Pair.Pipe.Run | core/src/main/jni/libevent/bufferevent_pair.c:152-222 | any run of writes, reads and transfers does to the two buffers what Play says of two byte strings, and what was got, the input and the output are together, in order, what was there and what was sent |
| Pair.PlayConserves | core/src/main/jni/libevent/bufferevent_pair.c:152-222 | over any run nothing is lost, added or reordered |
| Pair.AllIsSent | core/src/main/jni/libevent/bufferevent_pair.c:204-222 | a run sends just what it tries to write, when each write fits a chain and all of them the lengths |
| Pair.AllArrives | core/src/main/jni/libevent/bufferevent_pair.c:152-193 | no byte is stuck: a reader that takes some bytes after each transfer has got all after as many rounds as there are bytes, whatever the watermark |
| Pair.NeverPast | core/src/main/jni/libevent/bufferevent_pair.c:152-193 | transfers that respect a watermark never take the input past it, over any run |
| Pair.Pipe.Write | core/src/main/jni/libevent/bufferevent_pair.c:204-222 | what is written is counted and nothing else changes |
| Pair.Pipe.Read | core/src/main/jni/libevent/bufferevent.c:448-452 | what is read comes off the front of the input, and written is still taken, input and output |
| Pair.TransferBeside | core/src/main/jni/libevent/bufferevent_pair.c:152-193 | a transfer in one direction leaves the other alone |
| Pair.Talk | core/src/main/jni/libevent/bufferevent_pair.c:195-203 | nothing moves unless one side writes and the other reads and is not suspended; then until nothing is left or the reader has reached its high watermark, and never past it |
| Pair.OutbufCb | core/src/main/jni/libevent/bufferevent_pair.c:204-222 | new output is handed over if there is a partner who wants it |
| Pair.Enable | core/src/main/jni/libevent/bufferevent_pair.c:224-250 | both directions move what they may, and both keep their bytes |
| Pair.FlushPair | core/src/main/jni/libevent/bufferevent_pair.c:304-337 | a flush moves its share in the directions asked for, and both keep their bytes |
| Pair.FlushEmpties | core/src/main/jni/libevent/bufferevent_pair.c:152-177 | a flush empties the output if and only if the watermark is off, reached, or far enough; a second one always does |
| Arc4.EveryOctet | core/src/main/jni/libevent/arc4random.c:96-105 | a table without repetitions has every octet |
| Arc4.StepKeeps | core/src/main/jni/libevent/arc4random.c:107-122 | the swap keeps the table a permutation |
| Arc4.StepRoundTrip | core/src/main/jni/libevent/arc4random.c:425-437 | the state before a step can be computed from the state after it |
| Arc4.Generator.GetByte | core/src/main/jni/libevent/arc4random.c:425-437 | both indices, the two octets swapped, and the byte at their sum, as octets |
| Arc4.MixedIs | core/src/main/jni/libevent/arc4random.c:107-122 | 256 rounds, of which the n-th takes the n-th octet of the data, which starts again when it is used up |
| Arc4.Generator.AddRandom | core/src/main/jni/libevent/arc4random.c:107-122 | any data, however short, leaves a permutation, and both indices one before where the first was |
| Arc4.LeastIs | core/src/main/jni/libevent/arc4random.c:524-541 | the arithmetic without 64-bit numbers computes 2^32 modulo the bound, and less than half of all words are refused |
| Arc4.NoBias | core/src/main/jni/libevent/arc4random.c:503-557 | the accepted words have every residue equally often |
| Arc4.Uniform | core/src/main/jni/libevent/arc4random.c:515-557 | the result is the first accepted word modulo the bound |

## Left out

- Pinned, referenced, multicast and file-segment chains, sendfile and mmap, chain flags and reference counts: they depend on memory and files outside the buffer. A chain's memory is a sequence that only its chain owns.
- Failure of `malloc`: an allocation fails only for a size beyond the largest chain.
- Freeze flags, locks, deferred callbacks and the reference counts of buffers and bufferevents.
- A buffer's total length is required not to exceed the type of lengths where two buffers are joined; the source does not check this sum.
- `evbuffer_commit_space` of several vectors, or of one that is not in the last chain.
- EvbufferRead.Read: what the socket has and what the kernel answers are parameters.
- EvbufferMove.RemoveBuffer: requires that the chains to be moved meet the exact condition of EvbufferMove.SourceExact and EvbufferMove.TargetExact; what the source does to a buffer that has lost track of its data is not modelled beyond EvbufferGaps.MoveAcrossGap and EvbufferGaps.MoveBehindGap.
- EvbufferSearch.PtrMemcmp: only whether the comparison is zero, not its sign, because no caller looks at the sign.
- EvbufferQueue.CopyoutFrom: takes a position that lies in the buffer; the overflow check on a forged position is left out.
- `evtag_marshal_timeval`, `evtag_marshal_string` and their inverses, which are the modelled operations in sequence.
- The rounding in `array_nextsize`, and shrinking of arrays, which libev does not do.
- libev's idle, prepare, check, fork, child, stat and embed watchers, signals beyond their pending flags, `ev_suspend`, clock jumps, and the priorities that `ev_start` clamps: every priority here is in range.
- Periodic watchers beyond the computation of their next time and the rebuilding of their heap, which are the timers' code again.
- TimerSet.Timers.TimersReify: time stamps are integers, so that `ev_timer`'s floating-point rounding is not modelled.
- Periodics.Recalc: over real numbers an interval is never lost in adding it, so that the branch for that cannot be taken, which an assertion says.
- PendingQueue.Pendings.NewWatcher: a watcher's priority is fixed when it is made; `ev_set_priority` on a stopped one is not modelled.
- PendingQueue.Pendings.RunOnce: of `ev_io_stop` and `ev_timer_stop` of the record it has what they do to the pending queue.
- PendingQueue.Pendings.RunCallback: a callback's other effects, such as starting timers, do not touch the queue and are left out.
- PendingQueue.Pendings.InvokePending: a script is finite, and a callback beyond its end does nothing, so that callbacks which feed each other for ever are covered only up to any number of steps.
- FdChanges.EpollLoop.Stop: has the table half alone; IoEvents.IoLoop.Stop has clear_pending too.
- FdChanges.EpollLoop.FdKill: records the watchers it feeds; IoEvents.IoLoop.FdReify feeds them to the pending queue.
- FdChanges.EpollLoop.FdEvent: records the events it feeds; IoEvents.IoLoop.Poll feeds them to the pending queue.
- FdChanges.EpollLoop.EpollModify: of the failures that end in `fd_kill` the model has a closed fd and a full kernel.
- FdChanges.EpollLoop.Start: watcher lists are sequences, and a watcher's fd and mask are parameters; a watcher must not be changed while it is started.
- The select, kqueue, devpoll and port backends, and the Windows variants.
- Wakeup.StepKeeps: the async watchers are those started before the run; `ev_async_start` and `ev_async_stop` are not steps of it.
- Wakeup.NoLostWakeup: steps are sequentially consistent, which is what the memory fences in the source are for; a full pipe and failing writes are left out.
- Suspension.Bev.Decrement: adding the refill event always succeeds, as the source assumes for its other calls.
- Suspension.Bev.Update: a refund may not lift a limit so far above the maximum that the next update overflows; TokenBucket.RefillOverflows is such a case.
- The socket, filter, OpenSSL and asynchronous bufferevents, watermark callbacks, and the timeouts that a transfer between a pair sets again.
- Pair.Pipe.Run: a write that would make the two buffers together longer than the type of lengths allows is skipped.
- The seeding of ARC4 and any claim about its strength.
