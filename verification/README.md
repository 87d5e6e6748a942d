# libevent 2.0.21: buffers, interest sets, timers, names, rates and records

This project models the core of libevent 2.0.21 and proves what its comments, tests and documentation promise of it.

* **evbuffer** (`EvBuffer.dfy`, `EvRuns.dfy`, `EvSearch.dfy`, `EvReserve.dfy`, `EvSpares.dfy`). A byte queue in a linked list of chunks, with
  the pointer to a pointer `last_with_datap`. The classes `Chain` and `EvBuffer` have the fields of the C structs and are updated
  in place; a slot (`struct evbuffer_chain **`) is the chunk whose `next` it is, or null for `&buf->first`. `Valid` says more
  than the comment in `evbuffer-internal.h`: chunks with data first, empty ones behind, and `last_with_datap` the slot of the last
  one with data. `Tight` adds that no spare empty chunk stands at the tail; `evbuffer_reserve_space` leaves some.
* **Interest sets** (`InterestSets.dfy`). Readers and writers per descriptor, and the three ways in which they reach the kernel.
* **Event loop** (`MinHeap.dfy`, `Timers.dfy`, `EventLoop.dfy`). The binary heap, common timeout queues, priority queues, counters.
* **Hash table** (`HashTable.dfy`). Chained buckets, grown by copying or in place.
* **evdns** (`DnsNames.dfy`, `Rings.dfy`, `DnsRequests.dfy`, `DnsRuns.dfy`). Name compression, circular lists, and the life of
  requests and handles.
* **Rate limiting** (`TokenBuckets.dfy`, `RateLimit.dfy`). Buckets, groups, suspension, refill timers.
* **Wire format** (`Wire.dfy`, `Tagging.dfy`, `RpcGen.dfy`). Nibble integers, tags, records, and the code that the generator emits.
* **Locks and random numbers** (`Locks.dfy`, `Arc4Random.dfy`). Pairs of locks; RC4 state and unbiased reduction.

`Wrappers.dfy`, `Bytes.dfy` and `TailQueues.dfy` hold what these share. Code that changes things step by step is modelled by
classes and methods that change fields, arrays and links; each is proved against functions on values, and those against what is
promised: `Ledger` and `Traffic` are such values of an evdns base, `Loop` of an event base, `View` and `GroupView` of bufferevents and
their groups.

Results that hold only under a condition, with the exact condition and an input that fails it:

* `evbuffer_add`, on every valid buffer. An assertion fails if and only if the bytes do not fit, the last chunk has some room and an
  empty chunk stands before it; without the assertion, bytes are lost. Otherwise the bytes are appended, and `last_with_datap` is right
  if and only if there was no spare empty chunk, nothing was added, or the bytes went past the last chunk and that had room or the
  buffer was empty (`EvBuffer.Add`; `RemoveBuffer`, `AddBuffer` and `PrependBuffer` have conditions of the same kind). Reservations that
  are never committed lead there (`EvSpares.AddBehindSpare`, `AddAmongSpares`, `SpareIsLost`). Runs of the nine operations without
  reservations never do (`EvRuns.Run`).
* `evbuffer_commit_space` leaves `last_with_datap` right if and only if no empty chunk lies before one with data
  (`EvReserve.CommitSpace`, `EvSpares.CommitBehindSpare`). A reservation of one vector is accepted if and only if it is where the commit
  looks (`EvReserve.ReserveOne`).
* A name survives the round trip through the wire format if and only if none of its labels is empty (`DnsNames.ParseNames`,
  `EmptyLabelLost`). `dnsname_to_labels` writes one byte behind its buffer if and only if a name with no known suffix ends in a label
  exactly at the end of the room (`DnsnameToLabels`, `OneByteOver`).
* A request waits although there is room for it if and only if it is the next name of a search, the maximum had just been reached and
  nothing else waited, or the maximum has been raised (`DnsRequests.NextWaits`, `DnsRuns.StaysBusy`). With a maximum of one a search
  stalls there (`DnsRuns.SearchStalls`).
* A generated unmarshal gives the message back if and only if it is complete: unset required entries are sent all the same, as what
  their memory holds (`RpcGen.MessageBack`, `UnsetNumberSent`). What it reads and what it refuses, of any bytes, is `RpcGen.UnmarshalIs`.
* A tag is read within the bytes that are pulled up if and only if the buffer has at most five bytes or one of the first five ends the
  tag (`Tagging.DecodeTagInternal`, `SixByteTag`).
* The overflow-safe bucket update is min(maximum, limit + n * rate) if and only if the limit is at most the maximum or the gap is
  closed (`TokenBuckets.UpdateExact`); a bucket that was given more than its maximum keeps growing (`RateLimits.CreditGrows`).
* `HT_GROW` stays inside its table of primes if and only if the last of them is large enough, and `HT_INSERT` keeps the load within
  the limit if and only if it was below or the table can grow (`HashTable.NextPrime`, `Insert`).

## Model

| member | source | states |
|---|---|---|
| `EvBuffers.AllocationSize` | libevent-2.0.21-stable/buffer.c:155-181 | The size of a new chunk is the first doubling of 1024 that holds the bytes asked for and the chunk header, or just that where doubling would pass the limit. |
| `EvBuffers.Chain.constructor` | libevent-2.0.21-stable/buffer.c:155-181 | A new chunk is empty and has room for the bytes asked for. |
| `EvBuffers.Chain.Append` | libevent-2.0.21-stable/buffer.c:1559-1568 | Bytes copied behind the data of a chunk: the chunk holds its old bytes, then the new ones. |
| `EvBuffers.Chain.Push` | libevent-2.0.21-stable/buffer.c:1644-1655 | Bytes copied into the misalignment: the chunk holds the new bytes, then its old ones. |
| `EvBuffers.Chain.Skip` | libevent-2.0.21-stable/buffer.c:1003-1007 | misalign grows and off shrinks by n: the chunk holds the rest of its bytes. |
| `EvBuffers.Chain.Align` | libevent-2.0.21-stable/buffer.c:1695-1701 | Moving the data to the beginning of the memory keeps it, and leaves all free space behind it. |
| `EvBuffers.InsertKeepsPointer` | libevent-2.0.21-stable/buffer.c:283-311 | After a chunk with data has been inserted, last_with_datap is right exactly when there was no spare empty chunk behind the last one with data, or there were no bytes at all, or none are added. |
| `EvBuffers.InsertKeepsContents` | libevent-2.0.21-stable/buffer.c:283-311 | Putting a chunk over the empty tail appends its bytes to the stream. |
| `EvBuffers.InsertLoses` | libevent-2.0.21-stable/buffer.c:283-311 | Freeing the chunks from a place on keeps the stream exactly when they are all empty: the assertion of evbuffer_chain_insert is needed. |
| `EvBuffers.FilledThenInserted` | libevent-2.0.21-stable/buffer.c:1585-1609 | Once evbuffer_add has filled the last chunk, the assertion holds exactly when every chunk but the last had data; the pointer then goes to the new chunk. |
| `EvBuffers.AppendKeepsPointer` | libevent-2.0.21-stable/buffer.c:1559-1568 | Writing into the last chunk keeps last_with_datap right exactly when that chunk is *last_with_datap, or nothing is written. |
| `EvBuffers.PrependKeeps` | libevent-2.0.21-stable/buffer.c:1640-1685 | Bytes in front of the first chunk come first in the stream, and last_with_datap stays right. |
| `EvBuffers.DrainKeeps` | libevent-2.0.21-stable/buffer.c:980-1007 | Cutting k whole chunks and r bytes of the next one removes exactly that prefix, and the index of the last chunk with data moves by k. |
| `EvBuffers.JoinPointer` | libevent-2.0.21-stable/buffer.c:859-948 | Of two joined lists the last chunk with data is where the second list says, provided the first has no spare empty chunk. |
| `EvBuffers.PullupKeeps` | libevent-2.0.21-stable/buffer.c:1243-1278 | Merging the first chunks into one and shortening the next keeps the stream, and tells the new index of the last chunk with data. |
| `EvBuffers.EvBuffer.constructor` | libevent-2.0.21-stable/buffer.c:340-353 | A new evbuffer is empty and keeps the invariant. |
| `EvBuffers.EvBuffer.FirstVictim` | libevent-2.0.21-stable/buffer.c:283-311 | The loop finds the slot of the first chunk without data from last_with_datap on, or the end. |
| `EvBuffers.EvBuffer.ChainsAllEmpty` | libevent-2.0.21-stable/buffer.c:237-247 | True exactly when no chunk from here on has data. |
| `EvBuffers.EvBuffer.ChainInsert` | libevent-2.0.21-stable/buffer.c:283-311 | On any list: done exactly when only empty chunks would be freed, and then the bytes of the chunk are appended and it is the last one; else the list is as it was. |
| `EvBuffers.EvBuffer.AddInTwo` | libevent-2.0.21-stable/buffer.c:1585-1609 | Filling the last chunk and putting the rest in a new one is done exactly when the last chunk had no room or all chunks before it had data; it appends exactly the bytes, and last_with_datap is right exactly when there was room, no spare empty chunk, or no data before. |
| `EvBuffers.EvBuffer.Add` | libevent-2.0.21-stable/buffer.c:1534-1617 | On every valid buffer: a frozen end makes it fail without a change; an assertion fails exactly when the bytes do not fit, the last chunk has some room and an empty chunk stands before it; else exactly the bytes are appended, and last_with_datap is right exactly when no spare empty chunk was at the tail, nothing was added, or the bytes went past the last chunk and that had room or the buffer was empty. |
| `EvBuffers.EvBuffer.Prepend` | libevent-2.0.21-stable/buffer.c:1620-1691 | Puts exactly the bytes in front, or fails without a change when the start is frozen; keeps the invariant. |
| `EvBuffers.EvBuffer.DrainPlan` | libevent-2.0.21-stable/buffer.c:980-1001 | The loop that frees chunks stops at the chunk in which the drained prefix ends, having counted the bytes before it. |
| `EvBuffers.EvBuffer.Drain` | libevent-2.0.21-stable/buffer.c:951-1017 | Removes the first len bytes, or all there are; a frozen start makes it fail without a change. |
| `EvBuffers.EvBuffer.Copyout` | libevent-2.0.21-stable/buffer.c:1035-1078 | Returns the first bytes of the stream, as many as asked for or as there are, and changes nothing. |
| `EvBuffers.EvBuffer.Remove` | libevent-2.0.21-stable/buffer.c:1021-1032 | What it returns, followed by what remains, is what was there. |
| `EvBuffers.EvBuffer.AddBuffer` | libevent-2.0.21-stable/buffer.c:859-902 | All bytes move to the end of the other buffer and the source is empty, or nothing changes when frozen; the invariant survives exactly when the target was tight or had no bytes. |
| `EvBuffers.EvBuffer.PrependBuffer` | libevent-2.0.21-stable/buffer.c:905-948 | All bytes move in front of those of the other buffer and the source is empty, or nothing changes when frozen; the invariant survives exactly when the source was tight or the target had no bytes. |
| `EvBuffers.EvBuffer.PullPlan` | libevent-2.0.21-stable/buffer.c:1243-1257 | The loop of pullup frees whole chunks while they fit the size asked for, and remembers whether the last chunk or *last_with_datap was among them. |
| `EvBuffers.EvBuffer.Pullup` | libevent-2.0.21-stable/buffer.c:1174-1283 | Keeps the stream; it succeeds exactly when 0 < size <= length, and then the first chunk holds the first size bytes in one piece. |
| `EvBuffers.EvBuffer.AdvanceLastWithData` | libevent-2.0.21-stable/buffer.c:646-659 | last_with_datap moves over the chunks with data, and stops in front of the first empty one. |
| `EvBuffers.EvBuffer.FreeTrailingEmptyChains` | libevent-2.0.21-stable/buffer.c:265-277 | However many empty chunks stand at the tail, exactly they go: the stream stays, and every chunk left has data. |
| `EvBuffers.EvBuffer.TakeList` | libevent-2.0.21-stable/buffer.c:1130-1147 | A detached list of chunks with data, linked to the end of any valid buffer, appends exactly its bytes; the invariant holds and no spare empty chunk is left. |
| `EvBuffers.EvBuffer.MoveBytes` | libevent-2.0.21-stable/buffer.c:1116-1154 | Whole chunks are linked over and the rest is copied: any valid target gains exactly the prefix that the source loses. An assertion fails, or last_with_datap is wrong, only when no whole chunk moves, and then as in evbuffer_add. |
| `EvBuffers.EvBuffer.RemoveBuffer` | libevent-2.0.21-stable/buffer.c:1084-1171 | Moves the first datlen bytes, or all, to the end of the other buffer: together the two hold the same bytes in the same order; a frozen buffer makes it fail without a change. For every valid target it is told exactly when the assertion of evbuffer_add fails, and when the last_with_datap of the target is right. |
| `EvRuns.OnOne` | libevent-2.0.21-stable/buffer.c:951-1691 | Each of add, prepend, drain, remove, copyout and pullup does to the bytes, and returns, what it does on a byte sequence, and leaves the buffer ready for the next one. |
| `EvRuns.MoveFrom` | libevent-2.0.21-stable/buffer.c:859-1171 | Each of add_buffer, prepend_buffer and remove_buffer does to two buffers what it does to two byte sequences. |
| `EvRuns.Run` | libevent-2.0.21-stable/buffer.c:858-1691 | Every run of these nine operations on two new buffers refines the same run on two byte sequences, with all that it returns, and keeps the list invariant, last_with_datap and total_len. |
| `EvRuns.FirstInFirstOut` | libevent-2.0.21-stable/buffer.c:1021-1617 | In a run of adds and removes, what came out followed by what is left is all that went in, in order. |
| `EvReserve.ScanSpace` | libevent-2.0.21-stable/buffer.c:1851-1876 | The loop of _evbuffer_expand_fast adds up the space of consecutive chunks from the first one with space on, at most n of them, realigning empty ones; it stops with enough, with n chunks, or at the end. |
| `EvReserve.AppendNew` | libevent-2.0.21-stable/buffer.c:1881-1894 | A new chunk behind the last one supplies the missing room; the bytes stay. |
| `EvReserve.ReplaceEmpty` | libevent-2.0.21-stable/buffer.c:1895-1934 | All empty chunks give way to one that has the missing room; the bytes stay, and at most two chunks are needed. |
| `EvReserve.ExpandFast` | libevent-2.0.21-stable/buffer.c:1831-1935 | Afterwards at most n consecutive chunks, from the first one with space on, have room for datlen bytes; the bytes stay. |
| `EvReserve.InsertNew` | libevent-2.0.21-stable/buffer.c:313-323 | A new empty chunk with the room asked for replaces all empty ones; the bytes stay. |
| `EvReserve.Resize` | libevent-2.0.21-stable/buffer.c:1794-1820 | A chunk is replaced by a longer one with the same bytes, in the same place. |
| `EvReserve.Widen` | libevent-2.0.21-stable/buffer.c:1757-1820 | A chunk with data and too little room is realigned, passed over or resized; the chunk that is returned has the room. |
| `EvReserve.ExpandSingle` | libevent-2.0.21-stable/buffer.c:1720-1826 | Returns one chunk with room for datlen bytes, and keeps the bytes and the invariant. |
| `EvReserve.ReserveOne` | libevent-2.0.21-stable/buffer.c:613-643 | With one vector: it fails exactly when the end is frozen, else the vector has the size asked for. evbuffer_commit_space accepts it exactly unless an empty chunk behind one with too little room was taken and yet another one follows. |
| `EvReserve.SetupVecs` | libevent-2.0.21-stable/buffer.c:2002-2035 | The vectors are the free ends of consecutive chunks in stream order, at most n, totalling at least howmuch, and exactly howmuch in exact mode. |
| `EvReserve.Disjoint` | libevent-2.0.21-stable/buffer.c:2002-2035 | No two vectors of a reservation share memory. |
| `EvReserve.ReserveSpace` | libevent-2.0.21-stable/buffer.c:613-643 | With two vectors or more: it fails exactly when the end is frozen; otherwise it returns at most n vectors, in stream order, totalling at least the size asked for, and the bytes stay. |
| `EvReserve.ReservedIsAccepted` | libevent-2.0.21-stable/buffer.c:697-708 | Some of the vectors of a reservation, each with a smaller length perhaps, pass the test of evbuffer_commit_space. |
| `EvReserve.Fill` | libevent-2.0.21-stable/buffer.c:613-643 | What a caller writes into a reserved vector changes neither the bytes of the buffer nor its structure. |
| `EvReserve.CheckFits` | libevent-2.0.21-stable/buffer.c:697-708 | The first pass accepts exactly the vectors that are free ends, or beginnings of them, of consecutive chunks. |
| `EvReserve.CommitTurn` | libevent-2.0.21-stable/buffer.c:709-718 | One turn of the second pass appends the bytes of its vector and leaves the others fitting. |
| `EvReserve.CommitLast` | libevent-2.0.21-stable/buffer.c:677-688 | The case of one vector at the end of the last chunk: its bytes are appended; last_with_datap is right exactly when no empty chunk is in between. |
| `EvReserve.InOrderPoints` | libevent-2.0.21-stable/buffer.c:709-718 | When no vector of length zero stands before one with bytes, last_with_datap is right after the second pass. |
| `EvReserve.CommitSpace` | libevent-2.0.21-stable/buffer.c:662-729 | Succeeds exactly when the end is not frozen and the test passes. A failure changes nothing; success appends exactly what was written, in order. last_with_datap is right exactly when no empty chunk lies before one with data, and always when a reservation is used from its first vector on. |
| `EvSpares.ReserveFillCommit` | libevent-2.0.21-stable/buffer.c:613-729 | Reserving with two vectors or more, writing any data that fits into them in order, and committing appends exactly that data, on every valid buffer. |
| `EvSpares.Spare` | libevent-2.0.21-stable/buffer.c:613-643 | A reservation that is not committed leaves one more spare empty chunk, with room. |
| `EvSpares.TwoSpares` | libevent-2.0.21-stable/buffer.c:613-643 | Two reservations that are not committed leave two spare empty chunks behind the data. |
| `EvSpares.AddBehindSpare` | libevent-2.0.21-stable/buffer.c:1559-1568 | A byte added while a spare chunk has room: the byte is there, and last_with_datap is wrong. |
| `EvSpares.AddAmongSpares` | libevent-2.0.21-stable/buffer.c:1585-1609 | Two spare chunks and more bytes than the last one takes: the assertion in evbuffer_chain_insert fails. |
| `EvSpares.SpareIsLost` | libevent-2.0.21-stable/buffer.c:283-311 | Without the assertion the bytes in the filled spare chunk are lost. |
| `EvSpares.CommitBehindSpare` | libevent-2.0.21-stable/buffer.c:677-688 | A byte committed at the end of the second spare chunk: the byte is there, and last_with_datap is wrong. |
| `EvSearch.Strchr` | libevent-2.0.21-stable/buffer.c:1296-1315 | The first occurrence of the byte at or behind the pointer, or -1 when there is none, across chunks. |
| `EvSearch.FindEolChar` | libevent-2.0.21-stable/buffer.c:1318-1342 | The scan in pieces of 128 bytes finds the first CR or LF of a chunk, as a plain scan would. |
| `EvSearch.FindEol` | libevent-2.0.21-stable/buffer.c:1345-1364 | The first CR or LF at or behind the pointer across chunks, or -1 when there is none. |
| `EvSearch.Strspn` | libevent-2.0.21-stable/buffer.c:1367-1403 | The length of the run of CRs and LFs at the pointer, across chunks; -1 behind the last chunk. |
| `EvSearch.EolRunIs` | libevent-2.0.21-stable/buffer.c:1367-1403 | The run that is counted goes up to the first byte that is neither CR nor LF. |
| `EvSearch.PtrSet` | libevent-2.0.21-stable/buffer.c:2411-2450 | Succeeds exactly when the position lies inside the buffer, and then points at that byte. |
| `EvSearch.PtrMemcmp` | libevent-2.0.21-stable/buffer.c:2457-2488 | What memcmp tells of the bytes at the pointer, across chunks, and those given: 0 exactly when they are equal, else the sign of the first difference; -1 where there are too few. |
| `EvSearch.MemcmpIs` | libevent-2.0.21-stable/buffer.c:2457-2488 | The first byte that differs decides: what memcmp tells is its order. |
| `EvSearch.SearchRange` | libevent-2.0.21-stable/buffer.c:2497-2559 | The least position at or behind the start where the pattern occurs and ends within the range, across any chunking; -1 exactly when there is none. An empty or oversized pattern gives the start. |
| `EvSearch.SearchCrlf` | libevent-2.0.21-stable/buffer.c:1450-1467 | Finds the first LF or CRLF, passing over a CR alone. |
| `EvSearch.SearchEol` | libevent-2.0.21-stable/buffer.c:1416-1488 | Finds the first end of line of the style and its length, or tells that there is none. |
| `EvSearch.Readln` | libevent-2.0.21-stable/buffer.c:1491-1527 | In every style the old bytes are the line, its first terminator and the rest; false only when there is no terminator or the start is frozen, then always, and then nothing changes. |
| `InterestSets.EpollSet.Ctl` | libevent-2.0.21-stable/epoll.c:264-318 | What epoll_ctl does to the interest set, and the five answers that epoll.c tells apart. |
| `InterestSets.EpollApplyOneChange` | libevent-2.0.21-stable/epoll.c:174-330 | Whatever the kernel held before, an open descriptor ends with exactly the wanted interest, and the call succeeds; others are untouched. |
| `InterestSets.CountsDecide` | libevent-2.0.21-stable/evmap.c:263-387 | The reader and writer counts are positive exactly when some registered event wants to read or write. |
| `InterestSets.EventBase.constructor` | libevent-2.0.21-stable/evmap.c:186-189 | A new base has no events and agrees with an empty kernel set. |
| `InterestSets.EventBase.MakeSpace` | libevent-2.0.21-stable/evmap.c:202-223 | The table of entries keeps what it holds; where it is too small it grows by doubling, from 32, to less than twice what is asked for. |
| `InterestSets.EventBase.GetOrConstruct` | libevent-2.0.21-stable/evmap.c:616-644 | The change of a descriptor is found, or one that asks for nothing is appended; idxplus1 and the change array stay inverse to each other. |
| `InterestSets.EventBase.ChangelistAdd` | libevent-2.0.21-stable/evmap.c:647-675 | The change of the descriptor, old or new, is marked as adding; its target becomes the old interest and the new one; other changes stay. |
| `InterestSets.EventBase.ChangelistDel` | libevent-2.0.21-stable/evmap.c:678-726 | The change of the descriptor is marked as deleting, or not at all where a pending add of what was not there is taken back; its target becomes the old interest without the removed one; other changes stay. |
| `InterestSets.MarksAsk` | libevent-2.0.21-stable/evmap.c:647-726 | An add or delete mark changes what is asked for by just that interest. |
| `InterestSets.AddedAndDeleted` | libevent-2.0.21-stable/evmap.c:678-726 | What was not there, is added, and is deleted again before the kernel is told leaves a change that asks for nothing. |
| `InterestSets.EventBase.DevpollCommit` | libevent-2.0.21-stable/devpoll.c:82-94 | Nothing is queued any more, and what the kernel watches on every descriptor is what it was going to watch before. |
| `InterestSets.EventBase.DevpollQueue` | libevent-2.0.21-stable/devpoll.c:97-115 | The command is put behind the others, and those are written first exactly when the queue is full; replaying the queue also does the new command. |
| `InterestSets.EventBase.DevpollAdd` | libevent-2.0.21-stable/devpoll.c:225-248 | What the kernel will hold becomes the old interest and the new one. |
| `InterestSets.EventBase.DevpollDel` | libevent-2.0.21-stable/devpoll.c:251-289 | What the kernel will hold becomes the old interest without the removed one, although POLLREMOVE forgets everything. |
| `InterestSets.EventBase.BackendAdd` | libevent-2.0.21-stable/epoll.c:352-367 | Through each of the three backends the interest to come is the old one and the new one; only the one that calls epoll_ctl at once changes the epoll set. |
| `InterestSets.EventBase.BackendDel` | libevent-2.0.21-stable/epoll.c:370-383 | Through each of the three backends the interest to come is the old one without the removed one; only the one that calls epoll_ctl at once changes the epoll set. |
| `InterestSets.EventBase.IoAdd` | libevent-2.0.21-stable/evmap.c:263-331 | The event is registered unless the descriptor is negative, a count is full or the backend refuses; the result tells which; counts and interest to come agree with the registered events. |
| `InterestSets.EventBase.IoDel` | libevent-2.0.21-stable/evmap.c:336-387 | The event is no longer registered unless the backend refuses; the result tells whether the backend was told nothing, was told, or refused; counts and interest to come agree with the rest. |
| `InterestSets.EventBase.EpollApplyChanges` | libevent-2.0.21-stable/epoll.c:333-349 | Every open descriptor in the change array ends with its target; those without a change are untouched; -1 exactly when some closed descriptor is asked for something. |
| `InterestSets.EventBase.ChangelistRemoveAll` | libevent-2.0.21-stable/evmap.c:560-578 | The change array is empty and no entry points into it. |
| `InterestSets.EventBase.Dispatch` | libevent-2.0.21-stable/epoll.c:386-406 | Afterwards the kernel watches, on every usable descriptor, exactly what its registered events want. |
| `InterestSets.Close` | libevent-2.0.21-stable/epoll.c:268-271 | A descriptor without events is closed, even with changes for it pending: counts, changes and interest to come stay right. |
| `InterestSets.Open` | libevent-2.0.21-stable/epoll.c:268-271 | A closed number is used again, even with changes for it pending: counts, changes and interest to come stay right. |
| `InterestSets.Perform` | libevent-2.0.21-stable/evmap.c:559-726 | Each operation of a run does what it does to the registered events; the kernel agrees with them after a dispatch, and before it is told nothing by the backends that collect changes. |
| `InterestSets.Run` | libevent-2.0.21-stable/evmap.c:262-387 | After any legal run of adds, deletes, dispatches, closing and reopening, and a dispatch, the kernel watches exactly what the registered events want. |
| `InterestSets.BackendsAgree` | libevent-2.0.21-stable/evmap.c:559-726 | The same run through immediate epoll calls, the changelist and the devpoll queue ends at the same kernel set on every open descriptor: read exactly when a reader is registered, write exactly when a writer is. Numbers may be closed and used again while changes for them are pending. |
| `MinHeaps.RootIsLeast` | libevent-2.0.21-stable/minheap-internal.h:59-69 | In a heap no deadline is before the root's. |
| `MinHeaps.MinHeap.Push` | libevent-2.0.21-stable/minheap-internal.h:71-77 | The event joins the heap; order and back indices stay right. |
| `MinHeaps.MinHeap.ShiftUp` | libevent-2.0.21-stable/minheap-internal.h:133-143 | Moving the hole up restores the order of a heap that is wrong only there. |
| `MinHeaps.MinHeap.ShiftDown` | libevent-2.0.21-stable/minheap-internal.h:145-158 | Moving the hole down restores the order of a heap that is wrong only there. |
| `MinHeaps.MinHeap.Erase` | libevent-2.0.21-stable/minheap-internal.h:96-115 | Exactly the event leaves the heap, wherever it was; -1 exactly when it was not in it. |
| `MinHeaps.MinHeap.Top` | libevent-2.0.21-stable/minheap-internal.h:69 | An event with the least deadline, or nothing exactly when the heap is empty. |
| `MinHeaps.MinHeap.Reserve` | libevent-2.0.21-stable/minheap-internal.h:117-131 | The array keeps its events; where it is too small it is doubled, from 8, or grows to what is asked for if that is more. |
| `Timers.InsertInOrder` | libevent-2.0.21-stable/event.c:2543-2570 | Scanning from the back puts the event behind all with the same or an earlier deadline: a sorted queue stays sorted. |
| `Timers.InsertKeeps` | libevent-2.0.21-stable/event.c:2543-2570 | Inserting at the right place keeps a queue sorted and free of repetitions. |
| `Timers.RemoveKeeps` | libevent-2.0.21-stable/event.c:2503-2539 | Removing an event keeps a queue sorted and free of repetitions. |
| `Timers.WithoutKeeps` | libevent-2.0.21-stable/event.c:2503-2539 | Taking a timer out of its heap or queue keeps the invariant, and every queue that had a wakeup keeps it. |
| `Timers.RescheduledKeeps` | libevent-2.0.21-stable/event.c:2085-2150 | Giving a timer a new deadline keeps the invariant, and every other queue keeps its wakeup. |
| `Timers.ScheduledKeeps` | libevent-2.0.21-stable/event.c:1145-1151 | Scheduling the internal timer at the head of its queue gives that queue a wakeup. |
| `Timers.AddedKeeps` | libevent-2.0.21-stable/event.c:2150-2156 | After a timer was put at the head of a common queue and its internal timer scheduled, every queue has a wakeup. |
| `Timers.TimerBase.QueueRemove` | libevent-2.0.21-stable/event.c:2503-2539 | The timer leaves the heap or the common queue that holds it, and nothing else changes. |
| `Timers.TimerBase.QueueInsert` | libevent-2.0.21-stable/event.c:2573-2612 | The timer enters the heap, or its common queue in order. |
| `Timers.TimerBase.Add` | libevent-2.0.21-stable/event.c:2027-2174 | The set of pending deadlines gains exactly this one, now + tv or the absolute time, in the common queue that is named or else in the heap; an activation of the event by timeout is withdrawn. |
| `Timers.TimerBase.Del` | libevent-2.0.21-stable/event.c:2197-2268 | The set of pending deadlines loses exactly this event. |
| `Timers.TimerBase.TimeoutNext` | libevent-2.0.21-stable/event.c:2380-2414 | The wait is the time until the earliest deadline of the heap, 0 where that has passed, and indefinite exactly when the heap is empty; it never goes past a pending deadline, in the heap or in a common queue. |
| `Timers.TimerBase.TimeoutProcess` | libevent-2.0.21-stable/event.c:2476-2499 | Exactly the timers of the heap that are due become active, in the order of their deadlines; what is due in a common queue has its internal timer active. |
| `Timers.TimerBase.RunQueue` | libevent-2.0.21-stable/event.c:1157-1177 | The due events of a common queue leave it from the front, in order, and become active. |
| `Timers.TimerBase.RunInternal` | libevent-2.0.21-stable/event.c:1157-1177 | The internal timer activates exactly the due events of its queue, and is scheduled again for the next one. |
| `Timers.TimerBase.ProcessDue` | libevent-2.0.21-stable/event.c:2476-2499 | Processing timeouts and then the internal timers that became active activates exactly the events whose deadline has come: none early, none skipped. |
| `Timers.TimerBase.Persist` | libevent-2.0.21-stable/event.c:1257-1302 | A persistent timer runs again a delay after its deadline, or after now where that has passed; never before now. |
| `Timers.Covered` | libevent-2.0.21-stable/event.c:2899-2922 | Every pending deadline has an element of the heap that is no later, or its internal timer is active. |
| `Timers.AllServed` | libevent-2.0.21-stable/event.c:2476-2499 | When no internal timer is left to run, exactly the due deadlines have become activations. |
| `Timers.Run` | libevent-2.0.21-stable/event.c:1257-2499 | Every run of add, delete, persist and process on the heap and the common queues acts as one table of deadlines. |
| `EventLoops.CountedInsert` | libevent-2.0.21-stable/event.c:2573-2612 | One more membership of an event that is not internal counts once. |
| `EventLoops.CountedRemove` | libevent-2.0.21-stable/event.c:2503-2539 | One membership less of an event that is not internal counts once. |
| `EventLoops.EventBase.QueueInsert` | libevent-2.0.21-stable/event.c:2573-2612 | The event enters the queue, once and at its end; event_count and event_count_active stay the numbers of memberships and of active events. |
| `EventLoops.EventBase.QueueRemove` | libevent-2.0.21-stable/event.c:2503-2539 | The event leaves the queue; the counters stay exact. |
| `EventLoops.EventBase.EventActive` | libevent-2.0.21-stable/event.c:2289-2327 | The event is active once, at the end of the queue of its priority; event_continue is set exactly when it is newly active and more urgent than what runs. |
| `EventLoops.EventBase.EventAdd` | libevent-2.0.21-stable/event.c:2060-2165 | Which queues the event is in afterwards, where an activation by timeout is withdrawn; a refusal by evmap changes nothing; other events are untouched. |
| `EventLoops.EventBase.EventDel` | libevent-2.0.21-stable/event.c:2197-2268 | The event is in no queue any more. |
| `EventLoops.EventBase.DeferredSchedule` | libevent-2.0.21-stable/event.c:2358-2377 | A callback is queued once, however often it is scheduled. |
| `EventLoops.EventBase.DeferredCancel` | libevent-2.0.21-stable/event.c:2338-2355 | The callback is not queued any more. |
| `EventLoops.EventBase.ProcessSingleQueue` | libevent-2.0.21-stable/event.c:1312-1370 | Callbacks of this priority start, at least one, each for the first event of the queue, while all more urgent queues are empty; they stop for a break, a more urgent event or an empty queue, and the result counts those that are not internal, or is -1 for a break. |
| `EventLoops.EventBase.ProcessDeferred` | libevent-2.0.21-stable/event.c:1379-1401 | At most 16 deferred callbacks run, always the first; it stops early exactly on a break or when none are left. |
| `EventLoops.EventBase.ProcessQueues` | libevent-2.0.21-stable/event.c:1410-1435 | With callbacks that do nothing, the events of the queues are called in order, up to and including the first queue that holds an event that is not internal, and all others stay queued. |
| `EventLoops.EventBase.ProcessActive` | libevent-2.0.21-stable/event.c:1410-1435 | If an event is active a callback starts, and the first is that of the first event of the most urgent queue; every one is, in the state in which it starts. They go on until a break, a more urgent activation, the end of a queue that held an event that is not internal, or until all queues are empty; a result of 0 means that nothing was broken off and all are empty. Then the deferred callbacks run. |
| `EventLoops.EventBase.OneRun` | libevent-2.0.21-stable/event.c:1312-1435 | Whatever the callbacks do, from one state there is only one such run: the same callbacks in the same order, the same result and the same state. |
| `EventLoops.EventBase.RoundStarts` | libevent-2.0.21-stable/event.c:1537-1638 | A round that finds an active event calls the first of the most urgent ones; one that finds only deferred callbacks runs the first of them. |
| `EventLoops.EventBase.NothingLeft` | libevent-2.0.21-stable/event.c:1041-1045 | No events are registered and none active: exactly when no event that is not internal is in any queue and nothing is deferred. |
| `EventLoops.EventBase.BaseLoop` | libevent-2.0.21-stable/event.c:1537-1638 | A row of rounds, each from the state that the one before left: the reports of the backend, then event_process_active exactly if something is active. It goes on until it is stopped, until no event that is not internal is left, or until once or nonblock ends it, and tells which. Every callback of priority p starts with all more urgent queues empty. |
| `HashTables.RehashBucket` | libevent-2.0.21-stable/ht-internal.h:353-363 | In one bucket every element that belongs elsewhere moves to its bucket; none is lost, buckets already right stay right, and the loop ends. |
| `HashTables.Rehash` | libevent-2.0.21-stable/ht-internal.h:352-364 | The in-place loop, in which moved elements can be met again, ends with the same elements, each in bucket hash mod new length. |
| `HashTables.MoveAll` | libevent-2.0.21-stable/ht-internal.h:331-342 | The copy into a fresh table has the same elements, each in bucket hash mod new length. |
| `HashTables.PrimesIncrease` | libevent-2.0.21-stable/ht-internal.h:299-309 | The table of primes is increasing. |
| `HashTables.TotalMembers` | libevent-2.0.21-stable/ht-internal.h:384-417 | The lengths of the chains add up to the number of elements. |
| `HashTables.HashTable.Limit` | libevent-2.0.21-stable/ht-internal.h:322-327 | The load limit is the most entries whose number over the length is no more than the load factor. |
| `HashTables.HashTable.NextPrime` | libevent-2.0.21-stable/ht-internal.h:322-327 | The first larger prime whose load limit exceeds the size; the loop reads behind the table of primes exactly when the last limit does not. |
| `HashTables.HashTable.GrowInPlace` | libevent-2.0.21-stable/ht-internal.h:346-366 | Growing in place keeps exactly the elements. |
| `HashTables.HashTable.GrowFresh` | libevent-2.0.21-stable/ht-internal.h:328-345 | Growing into a fresh table keeps exactly the elements. |
| `HashTables.HashTable.Grow` | libevent-2.0.21-stable/ht-internal.h:312-371 | Exactly the same elements, each where a search looks for it; the new length is the first larger prime whose load limit exceeds the size, and the table stays as it is where the limit is large enough or the primes are used up; -1 exactly when growth is due and no memory is to be had; it is told exactly when the table of primes is left. |
| `HashTables.HashTable.Find` | libevent-2.0.21-stable/ht-internal.h:137-164 | An element with the key, or null exactly when there is none. |
| `HashTables.HashTable.Insert` | libevent-2.0.21-stable/ht-internal.h:166-179 | The set gains exactly the element, unless there is no table to put it in or the table of primes is left, which is told exactly; the load stays within its limit exactly when it was below or the table could grow. |
| `HashTables.HashTable.RemoveKey` | libevent-2.0.21-stable/ht-internal.h:202-216 | The element with the key leaves the set and is returned unlinked; null when there is none. |
| `HashTables.HashTable.Start` | libevent-2.0.21-stable/ht-internal.h:246-259 | The first element in the order of the buckets, or null exactly when there is none. |
| `HashTables.HashTable.Next` | libevent-2.0.21-stable/ht-internal.h:262-275 | The element behind this one in the order of the buckets. |
| `HashTables.HashTable.NextRmv` | libevent-2.0.21-stable/ht-internal.h:277-293 | Removes the element and gives the one behind it; the order of the others stays. |
| `HashTables.HashTable.Walk` | libevent-2.0.21-stable/ht-internal.h:240-293 | HT_START and HT_NEXT meet every element exactly once. |
| `HashTables.HashTable.RepIsBad` | libevent-2.0.21-stable/ht-internal.h:384-417 | 0 exactly when the representation is right; every other result names the first test that fails, or the first bucket with a stranger. |
| `DnsNames.JoinOfLabels` | libevent-2.0.21-stable/evdns.c:936-989 | The labels of a name, up to the first empty one, joined by dots are the name exactly when none of its labels is empty. |
| `DnsNames.DecodeStable` | libevent-2.0.21-stable/evdns.c:936-989 | What was written stays readable as the packet grows. |
| `DnsNames.TakeTurn` | libevent-2.0.21-stable/evdns.c:953-979 | Each turn of the loop follows one more pointer or prints one more byte: the loop ends on every packet. |
| `DnsNames.TurnStaysOnCourse` | libevent-2.0.21-stable/evdns.c:953-979 | A turn of the parser goes on with the name that is read at the start, or ends just as that name tells. |
| `DnsNames.NameParse` | libevent-2.0.21-stable/evdns.c:936-989 | On every packet: Parsed exactly when a name stands at idx, with labels and with pointers that lead inside the packet and are followed at most `length` times, whose labels joined by dots fit the output; reading outside exactly when a label that would fit runs past the bytes that there are; else failure. What is encoded as RFC 1035 has it is returned. |
| `DnsNames.DecodeIsRead` | libevent-2.0.21-stable/evdns.c:935-989 | A name in the format of RFC 1035, with pointers to what stands before it, is read as its labels, and ends where it does. |
| `DnsNames.LabelTable.GetPos` | libevent-2.0.21-stable/evdns.c:1538-1546 | The position of an entry with this name, or nothing exactly when there is none. |
| `DnsNames.LabelTable.Add` | libevent-2.0.21-stable/evdns.c:1550-1564 | One entry more. |
| `DnsNames.WriteHit` | libevent-2.0.21-stable/evdns.c:1601-1607 | A pointer to a known suffix ends the name readably. |
| `DnsNames.WriteEnd` | libevent-2.0.21-stable/evdns.c:1608-1637 | The last label ends the name readably, and the table gains what is left of the name at its place unless it is full; the zero is written behind the room exactly when the label is not empty and ends with it. |
| `DnsNames.WriteMore` | libevent-2.0.21-stable/evdns.c:1618-1632 | The next label is written, and the table gains what is left of the name at its place unless it is full. |
| `DnsNames.DnsnameToLabels` | libevent-2.0.21-stable/evdns.c:1578-1641 | The result is the end of the name, -1 for a new label over 63 bytes, -2 for a name over 255 bytes or too little room, exactly. The name reads back from where it was put, every table entry parses to its own suffix, the table has gained every new suffix while it was not full, and what was written before is untouched. The final zero is written one byte behind the room exactly when the name ends in a label at its very end, no part of it is in the table, and its labels and length are in bounds. |
| `DnsNames.EndIs` | libevent-2.0.21-stable/evdns.c:1578-1641 | A name takes the bytes before its longest known suffix and two for the pointer; where none is known, its own length and one, or two if it ends in a label. |
| `DnsNames.OutcomeIs` | libevent-2.0.21-stable/evdns.c:1578-1641 | It is written exactly when the labels before the longest known suffix are short and there is room for all but the final zero. |
| `DnsNames.GainsAll` | libevent-2.0.21-stable/evdns.c:1603-1625 | Afterwards every suffix of the name that was not known is in the table at its place, unless the table is full. |
| `DnsNames.AgainTwoBytes` | libevent-2.0.21-stable/evdns.c:1578-1601 | A name that has been written and fitted the table takes two bytes the next time. |
| `DnsNames.OneByteOver` | libevent-2.0.21-stable/evdns.c:1633-1637 | A name of one byte in a room of two: the zero goes to the third byte. |
| `DnsNames.WriteParts` | libevent-2.0.21-stable/evdns.c:1578-1682 | Names and other fields are written one behind the other while they fit, each where the lengths of the parts before it tell, and the names share one table; the first that does not fit ends it. |
| `DnsNames.ParseNames` | libevent-2.0.21-stable/evdns.c:936-989 | Parsing each name at its start returns it and its end index exactly when no label of it is empty, and the labels up to the first empty one otherwise. |
| `DnsNames.WriteThenParse` | libevent-2.0.21-stable/evdns.c:936-1641 | A packet of names and other fields is written, received in front of any bytes and parsed: each name comes back exactly when no label of it is empty. |
| `DnsNames.TwiceInSeven` | libevent-2.0.21-stable/evdns.c:1578-1641 | The name "a.b" twice takes seven bytes, in a room of seven. |
| `DnsNames.EmptyLabelLost` | libevent-2.0.21-stable/evdns.c:936-1641 | The name a..b comes back as a. |
| `DnsNames.BuildRequest` | libevent-2.0.21-stable/evdns.c:1647-1682 | The room that evdns_request_len gives is always enough: a request fails exactly for a name over 255 bytes or a label over 63, and else holds header, name and question. |
| `Rings.Insert` | libevent-2.0.21-stable/evdns.c:2654-2669 | With the pointers of the code, a request goes to the end of a circular list, and other requests keep their pointers. |
| `Rings.Unlink` | libevent-2.0.21-stable/evdns.c:2617-2650 | With the pointers of the code, a request leaves a circular list, whose head moves on where it was the head; other requests keep their pointers. |
| `Rings.RingKept` | libevent-2.0.21-stable/evdns.c:2617-2669 | Work on one circular list leaves the others as they were. |
| `DnsRequests.EvdnsBase.LinksStay` | libevent-2.0.21-stable/evdns.c:2617-2669 | From every live request next leads to a live request with prev leading back, both waiting or both inflight in one bucket: no pointer leaves its list. |
| `DnsRequests.EvdnsBase.OneCallback` | libevent-2.0.21-stable/evdns.c:811-842 | A handle has its request, or one scheduled callback, or one that has run. |
| `DnsRequests.EvdnsBase.constructor` | libevent-2.0.21-stable/evdns.c:3315-3343 | A base with nameservers, all up, and no requests, handles or callbacks keeps the invariant. |
| `DnsRequests.EvdnsBase.NameserverPick` | libevent-2.0.21-stable/evdns.c:1313-1345 | The first nameserver from server_head on that is up, and server_head goes behind it; where none is up, the one behind server_head. |
| `DnsRequests.PickedIs` | libevent-2.0.21-stable/evdns.c:1313-1345 | A pick takes the first of the servers that are up, which then goes to their end. |
| `DnsRequests.InTurnIs` | libevent-2.0.21-stable/evdns.c:1313-1345 | Picks one after the other take the servers that are up in turn, again and again. |
| `DnsRequests.EvdnsBase.NameserverFailed` | libevent-2.0.21-stable/evdns.c:557-614 | Exactly this server goes down; while others are up, its requests that have not gone out get new servers, one pick after the other in the order of the lists, and nothing else changes. |
| `DnsRequests.TurnedIs` | libevent-2.0.21-stable/evdns.c:557-614 | When a server fails and others are up, exactly the requests that it had not sent move, the i-th of them to the i-th server that is up, counted round and round. |
| `DnsRequests.EvdnsBase.ReassignList` | libevent-2.0.21-stable/evdns.c:600-613 | Following next from the head of a list to the head again meets every request of it once, in order. |
| `DnsRequests.EvdnsBase.NameserverUp` | libevent-2.0.21-stable/evdns.c:617-635 | The server is up, its timeouts are forgotten, and its probe is cancelled: its callback is scheduled exactly when it had none. A server that was up changes nothing. |
| `DnsRequests.EvdnsBase.Transmit` | libevent-2.0.21-stable/evdns.c:2208-2250 | A choked server gets nothing, and the request stays marked; one whose socket takes no more is choked; else the request is counted, unmarked, and waits for its timeout, and where the socket failed the server goes down as in nameserver_failed. |
| `DnsRequests.TransmittedIs` | libevent-2.0.21-stable/evdns.c:2208-2250 | A request that goes out is counted once more and waits for its timeout, one that does not is marked; other requests only change their server, and only because theirs has failed. |
| `DnsRequests.EvdnsBase.TransmitAll` | libevent-2.0.21-stable/evdns.c:2309-2333 | Every marked request goes out once, unless its server is choked or has failed meanwhile; no other one does. |
| `DnsRequests.EvdnsBase.ServerReady` | libevent-2.0.21-stable/evdns.c:1472-1488 | When a socket can be written again its server is not choked, and what is marked goes out. |
| `DnsRequests.EvdnsBase.Promote` | libevent-2.0.21-stable/evdns.c:736-747 | The first waiting request becomes inflight, with the next nameserver in turn, at the end of the bucket of its new id. |
| `DnsRequests.EvdnsBase.Pump` | libevent-2.0.21-stable/evdns.c:731-751 | The first waiting requests go out, in order and exactly as many as there is room for; each is counted or marked, and nothing happens where there is no room. |
| `DnsRequests.EvdnsBase.RequestNew` | libevent-2.0.21-stable/evdns.c:2682-2755 | A new request in no list yet, never transmitted, for the handle and the name; it has the next nameserver in turn exactly when there is room; none, and no change, when the name is too long. |
| `DnsRequests.EvdnsBase.RequestSubmit` | libevent-2.0.21-stable/evdns.c:2759-2773 | With a nameserver the request goes to the end of its bucket and is transmitted; without, to the end of the waiting ones. |
| `DnsRequests.EvdnsBase.ScheduleCallback` | libevent-2.0.21-stable/evdns.c:811-842 | One callback more, for a handle that had none. |
| `DnsRequests.EvdnsBase.RequestFinished` | libevent-2.0.21-stable/evdns.c:648-697 | The request leaves its list and is freed with its question, its handle has none any more, and exactly as many waiting ones go out as there is room for then. |
| `DnsRequests.EvdnsBase.RequestReissue` | libevent-2.0.21-stable/evdns.c:706-726 | The next nameserver in turn; when it is another one the request is marked, its transmissions start again and one reissue is counted, and exactly then true. |
| `DnsRequests.ReissuedIs` | libevent-2.0.21-stable/evdns.c:706-726 | After a refusal a request that had gone out is tried elsewhere exactly when another server is up, or none is and the one behind server_head is another one; then it is marked, counted as reissued, and its transmissions start again. |
| `DnsRequests.EvdnsBase.ReplyOk` | libevent-2.0.21-stable/evdns.c:925-932 | The callback is scheduled, then a probe of the server that is not this request is cancelled, then the request goes: nothing else happens to handles and callbacks. The server is up, and only transmissions that this lets out can fail it. |
| `DnsRequests.EvdnsBase.ReplyError` | libevent-2.0.21-stable/evdns.c:857-924 | After a refusal with reissues left the server fails, and the request stays if another one is found; other errors but SERVFAIL take the server for up. Else the next name of the search goes out exactly when it is no reverse query, the search has a name left and it is not too long, and the callback is scheduled exactly when not. |
| `DnsRequests.EvdnsBase.CountTimeout` | libevent-2.0.21-stable/evdns.c:2149-2153 | One timeout more for the server; beyond the maximum it starts again and the server fails. |
| `DnsRequests.EvdnsBase.TimeoutCallback` | libevent-2.0.21-stable/evdns.c:2139-2173 | The timeout is counted; at the maximum of transmissions the callback is scheduled and the request goes; else it is transmitted to the next server in turn, and no handle or callback changes. |
| `DnsRequests.EvdnsBase.SearchTryNext` | libevent-2.0.21-stable/evdns.c:3185-3225 | The next name goes out under the same handle exactly when the search has one and it is not too long: the next domain, or the name as it is behind the last one, with which the search ends. The new request waits exactly when there was no room before the old one went. Else only the index of the search moves. |
| `DnsRequests.StillAskedIs` | libevent-2.0.21-stable/evdns.c:3185-3225 | What a search still asks for, if all fail, is the name with each domain behind its index, in their order, and then as it is if it has few dots. |
| `DnsRequests.EachNameOnce` | libevent-2.0.21-stable/evdns.c:3135-3225 | From its start a search asks for the name as it is and with each domain, each once: with enough dots as it is first, else last. |
| `DnsRequests.NextWaits` | libevent-2.0.21-stable/evdns.c:3185-3225 | The next name of a search is left waiting though there is room exactly when the maximum was just reached and nothing else waited. |
| `DnsRequests.FinishedBusy` | libevent-2.0.21-stable/evdns.c:648-751 | When a request is finished in any other way, none is left waiting though there is room, and none goes out beyond the maximum. |
| `DnsRequests.EvdnsBase.Cancel` | libevent-2.0.21-stable/evdns.c:2777-2809 | Exactly when the handle has a request and no callback is pending, the callback is scheduled and the request goes; else nothing happens. |
| `DnsRequests.EvdnsBase.CancelRequest` | libevent-2.0.21-stable/evdns.c:2777-2809 | A handle that has a request gets its callback and loses the request; else nothing happens. |
| `DnsRequests.EvdnsBase.MoveOne` | libevent-2.0.21-stable/evdns.c:3331-3335 | One request goes from the head of its old circular list to the end of its new one; all other lists stay closed. |
| `DnsRequests.EvdnsBase.Rehash` | libevent-2.0.21-stable/evdns.c:3315-3343 | The new circular lists hold exactly the inflight requests, each in the bucket of its id, and the waiting list is untouched. |
| `DnsRequests.EvdnsBase.SetMaxRequestsInflight` | libevent-2.0.21-stable/evdns.c:3315-3343 | The maximum, at least one, and over five, rounded up, the number of lists; requests, handles and servers stay, and waiting ones go on waiting. |
| `DnsRequests.EvdnsBase.Resolve` | libevent-2.0.21-stable/evdns.c:2813-2838 | A new handle with a request for the first name of its search, inflight exactly when there is room; nothing happens when the name is too long. |
| `DnsRequests.EvdnsBase.SendProbe` | libevent-2.0.21-stable/evdns.c:2279-2303 | The server gets a probe, a new handle with an inflight request whatever the limit, that goes to it if it is down. |
| `DnsRequests.EvdnsBase.RunCallback` | libevent-2.0.21-stable/evdns.c:766-808 | The first scheduled callback runs and its handle is freed; it has not run before. That of a probe that was not cancelled brings its server up exactly when it was answered; nothing else changes. |
| `DnsRuns.Do` | libevent-2.0.21-stable/evdns.c:648-933 | Every operation keeps all invariants and does to handles, requests, searches and callbacks what it is meant to; only the queue of deferred callbacks runs one. |
| `DnsRuns.StaysBusy` | libevent-2.0.21-stable/evdns.c:648-3225 | No operation but a change of the maximum leaves a request waiting though there is room, but for one that is the next name of a search, for which there is just one place. |
| `DnsRuns.NewcomersLast` | libevent-2.0.21-stable/evdns.c:731-2773 | Requests wait in line: in each operation at most one comes to wait, behind those that did. |
| `DnsRuns.Run` | libevent-2.0.21-stable/evdns.c:648-933 | Over every run, each step does what it is meant to, no handle is called back twice and none is lost: each still has its request, or has one scheduled callback, or was called. Without errors and changes of the maximum no request ever waits though there is room. |
| `DnsRuns.SearchStalls` | libevent-2.0.21-stable/evdns.c:3185-3225 | With a maximum of one, the first name of a search fails: the next one waits, and nothing is inflight whose reply or timeout could send it. |
| `TokenBuckets.UpdateExact` | libevent-2.0.21-stable/bufferevent_ratelim.c:73-110 | The overflow-safe update gives min(maximum, limit + n_ticks * rate) exactly when the limit is at most the maximum or the sum goes past the wrapped gap. |
| `TokenBuckets.UpdateOver` | libevent-2.0.21-stable/bufferevent_ratelim.c:73-110 | What the update does to a bucket over its maximum: it adds n_ticks * rate all the same, wraps below zero where that leaves the range, or is clipped where the sum closes the wrapped gap. |
| `TokenBuckets.OverfullGrows` | libevent-2.0.21-stable/bufferevent_ratelim.c:73-110 | A full bucket that is given one byte more grows by its rate with every tick, and at the end of the range it becomes the least value. |
| `TokenBuckets.UpdateAdds` | libevent-2.0.21-stable/bufferevent_ratelim.c:73-110 | No update adds more than n_ticks * rate. |
| `TokenBuckets.UpdateIsMin` | libevent-2.0.21-stable/bufferevent_ratelim.c:73-110 | For a limit within its maximum the update is min(maximum, limit + n_ticks * rate). |
| `TokenBuckets.UpdateTwice` | libevent-2.0.21-stable/bufferevent_ratelim.c:73-110 | Two updates are one with the ticks added. |
| `TokenBuckets.TicksAdd` | libevent-2.0.21-stable/bufferevent_ratelim.c:73-85 | Ticks are counted right across the wrap of the counter. |
| `TokenBuckets.NoTicksBack` | libevent-2.0.21-stable/bufferevent_ratelim.c:73-85 | No ticks are counted at the same tick, nor where the clock has gone back by up to half of its range. |
| `TokenBuckets.TicksForward` | libevent-2.0.21-stable/bufferevent_ratelim.c:73-85 | Time that does not go back is counted whole. |
| `RateLimits.Bufferevent.Suspend` | libevent-2.0.21-stable/bufferevent.c:66-99 | Reasons add up, and the backend stops with the first. |
| `RateLimits.Bufferevent.Unsuspend` | libevent-2.0.21-stable/bufferevent.c:78-111 | The backend runs again exactly when the direction is enabled and no reason is left. |
| `RateLimits.Bufferevent.Enable` | libevent-2.0.21-stable/bufferevent.c:407-427 | The backend runs in the enabled directions that nothing suspends. |
| `RateLimits.Bufferevent.Disable` | libevent-2.0.21-stable/bufferevent.c:498-510 | The backend stops in the disabled directions. |
| `RateLimits.Bufferevent.Update` | libevent-2.0.21-stable/bufferevent_ratelim.c:113-123 | Both limits become what the update makes of them: min(maximum, limit + n * rate) where they were within their maximum; the ticks counted are not counted again. |
| `RateLimits.Bufferevent.UpdateAgain` | libevent-2.0.21-stable/bufferevent_ratelim.c:87-123 | A second update at the same tick changes nothing. |
| `RateLimits.Bufferevent.DecrementOwn` | libevent-2.0.21-stable/bufferevent_ratelim.c:275-295 | The limit falls by the bytes; exactly when it is used up the direction is suspended and a refill set, and the timer is taken off exactly when neither direction needs it any more. |
| `RateLimits.Bufferevent.DecrementLimit` | libevent-2.0.21-stable/bufferevent_ratelim.c:901-954 | The limit falls by any decrement, also a negative one; the direction is suspended, or resumes, exactly where the limit passes zero, and the timer follows. |
| `RateLimits.Bufferevent.RefillCallback` | libevent-2.0.21-stable/bufferevent_ratelim.c:396-441 | The buckets are filled; a direction stays suspended exactly when its limit is still used up, and then the timer is set again. |
| `RateLimits.Bufferevent.SetRateLimit` | libevent-2.0.21-stable/bufferevent_ratelim.c:559-635 | With a new configuration the limits are clipped, or started at the rate, and exactly the used-up directions are suspended; without one none is. |
| `RateLimits.RunOne` | libevent-2.0.21-stable/bufferevent_ratelim.c:274-635 | No lost wakeup: over every interleaving, with decrements and credits of any size, each of which does what it is meant to, suspension for bandwidth holds exactly when the refill timer is pending, and the backend runs exactly where it is enabled and nothing suspends it. |
| `RateLimits.Perform` | libevent-2.0.21-stable/bufferevent_ratelim.c:274-635 | What each of the things does that can happen to a bufferevent, on all its fields. |
| `RateLimits.CreditGrows` | libevent-2.0.21-stable/bufferevent_ratelim.c:73-123 | One byte given to a full bucket, and a tick: more than the maximum may move. |
| `RateLimits.Group.SuspendAll` | libevent-2.0.21-stable/bufferevent_ratelim.c:352-373 | Exactly the members that can be locked are suspended, in this direction and for the group; nothing is pending. |
| `RateLimits.Group.UnsuspendAll` | libevent-2.0.21-stable/bufferevent_ratelim.c:487-503 | From any starting member, exactly the members that can be locked resume; the rest is pending exactly when some could not. |
| `RateLimits.Group.Charge` | libevent-2.0.21-stable/bufferevent_ratelim.c:297-307 | The limit falls and the total grows by the bytes; the group is suspended exactly when its limit is used up, and its members with it, or they resume. |
| `RateLimits.Group.Update` | libevent-2.0.21-stable/bufferevent_ratelim.c:528-536 | The limits become what the update makes of them, growing by at most ticks times rate; the ticks counted are not counted again. |
| `RateLimits.Group.UpdateAgain` | libevent-2.0.21-stable/bufferevent_ratelim.c:87-123 | A second update at the same tick changes nothing. |
| `RateLimits.Group.RefillCallback` | libevent-2.0.21-stable/bufferevent_ratelim.c:528-556 | The buckets are filled; the group resumes exactly in the directions whose limit has reached min_share, or where members still wait, and with it exactly the members that can be locked. |
| `RateLimits.Group.DecrementLimit` | libevent-2.0.21-stable/bufferevent_ratelim.c:957-994 | A credit or charge of any size by the program: the group is suspended, or resumes, exactly where the limit passes zero, and its members with it. |
| `RateLimits.Group.SetMinShare` | libevent-2.0.21-stable/bufferevent_ratelim.c:700-718 | min_share is the least of what was configured and the two rates. |
| `RateLimits.Group.SetCfg` | libevent-2.0.21-stable/bufferevent_ratelim.c:669-697 | The limits are clipped to the new maxima and min_share is fitted to the new rates. |
| `RateLimits.Group.AddMember` | libevent-2.0.21-stable/bufferevent_ratelim.c:732-776 | The member joins, and is suspended exactly in the directions in which the group is. |
| `RateLimits.Group.RemoveMember` | libevent-2.0.21-stable/bufferevent_ratelim.c:785-806 | The member leaves, and the group suspends it no more. |
| `RateLimits.AddToGroup` | libevent-2.0.21-stable/bufferevent_ratelim.c:732-776 | The bufferevent is in the new group and not in the old one. |
| `RateLimits.GetRlimMax` | libevent-2.0.21-stable/bufferevent_ratelim.c:200-260 | The least of what the refilled own bucket holds and the share of the group, nothing while the group is suspended, and never below zero; a suspended group suspends the member. |
| `RateLimits.ShareIsEven` | libevent-2.0.21-stable/bufferevent_ratelim.c:238-252 | The shares of the members use up the bucket but for less than a byte each, unless min_share is more. |
| `RateLimits.ShareLeaves` | libevent-2.0.21-stable/bufferevent_ratelim.c:238-252 | A transfer within its share leaves the limit above -min_share. |
| `RateLimits.Transfer` | libevent-2.0.21-stable/bufferevent_ratelim.c:200-307 | Nothing moves in a direction in which the backend is off or the group suspended. Else exactly what is wanted moves, or as much as the own bucket and the share of the group allow; it is charged to the member and to the group, which suspends all or none; everything else stays. |
| `RateLimits.Group.Throughput` | libevent-2.0.21-stable/bufferevent_ratelim.c:528-548 | While the bounds hold, what a group has moved in its ticks so far is less than its maximum, ticks times rate and min_share. |
| `RateLimits.MemberActs` | libevent-2.0.21-stable/bufferevent_ratelim.c:274-635 | Refills, decrements, settings, suspensions and enabling of a member do what they do to it alone, and leave its group right. |
| `RateLimits.Run` | libevent-2.0.21-stable/bufferevent_ratelim.c:200-548 | Over every run of transfers, ticks, and refills, decrements, settings, suspensions and enabling of members, each of which does what it is meant to, a group moves less than maximum + ticks * rate + min_share in each direction; where the ticks do not go back they count the time, from the last refill before the run to the last in it. |
| `Wire.FromOwnNibbles` | libevent-2.0.21-stable/event_tagging.c:115-136 | The nibbles of a number give the number. |
| `Wire.DecodeEncodedInt` | libevent-2.0.21-stable/event_tagging.c:304-358 | Decoding an encoded number, whatever follows it, returns the number and the length of its encoding. |
| `Wire.DecodeIntIs` | libevent-2.0.21-stable/event_tagging.c:304-358 | What decodes as a number, and as which: the first nibble is one less than the number of those behind it, which are its digits. |
| `Wire.EncodeIntShortest` | libevent-2.0.21-stable/event_tagging.c:115-136 | No bytes that decode to a number are fewer than its encoding. |
| `Wire.DecodeEncodedTag` | libevent-2.0.21-stable/event_tagging.c:172-231 | Decoding an encoded tag, whatever follows it, returns the tag and the length of its encoding. |
| `Wire.DecodeTagIs` | libevent-2.0.21-stable/event_tagging.c:195-231 | What decodes as a tag, and as which: up to five bytes of which exactly the last has no high bit, modulo 2^32. |
| `Wire.EncodeTagShortest` | libevent-2.0.21-stable/event_tagging.c:172-190 | No bytes that give a tag are fewer than its encoding. |
| `Wire.EncodedInside` | libevent-2.0.21-stable/event_tagging.c:172-231 | A tag that was encoded is read within the bytes that are pulled up, whatever follows it. |
| `Wire.HeaderOfMarshaled` | libevent-2.0.21-stable/event_tagging.c:423-436 | The header of a record tells its tag, its length and where the payload starts. |
| `Wire.UnmarshalMarshaled` | libevent-2.0.21-stable/event_tagging.c:452-465 | Unmarshalling a record followed by anything returns the record and exactly the rest. |
| `Wire.SplitsOneWay` | libevent-2.0.21-stable/event_tagging.c:246-252 | Records that give the same bytes are the same: a stream of records splits in one way. |
| `Wire.RecordsOfMarshaled` | libevent-2.0.21-stable/event_tagging.c:246-465 | What was marshalled splits into the records that it was marshalled from. |
| `Wire.UnmarshalMarshaledInt` | libevent-2.0.21-stable/event_tagging.c:470-519 | Unmarshalling a marshalled number returns it and exactly the rest. |
| `Wire.UnmarshalIntIs` | libevent-2.0.21-stable/event_tagging.c:470-519 | A number is read exactly from a record in front with its tag whose payload begins with one. |
| `Wire.PayloadLengthOfMarshaled` | libevent-2.0.21-stable/event_tagging.c:405-418 | The length that is peeked is the length of the payload. |
| `Tagging.EncodeIntInternal` | libevent-2.0.21-stable/event_tagging.c:115-148 | The shifting and masking writes exactly the encoding of the number. |
| `Tagging.DecodeNibbles` | libevent-2.0.21-stable/event_tagging.c:323-330 | The shifting loop returns the number that the nibbles give. |
| `Tagging.EncodeTagInternal` | libevent-2.0.21-stable/event_tagging.c:172-190 | The loop writes exactly the encoding of the tag. |
| `Tagging.DecodeTagBytes` | libevent-2.0.21-stable/event_tagging.c:195-222 | The loop returns the tag that the bytes give, and how many there were. It leaves the bytes that were pulled up exactly when the buffer is longer than five bytes and all five carry the high bit. |
| `Tagging.SixByteTag` | libevent-2.0.21-stable/event_tagging.c:204-216 | On 80 80 80 80 80 01 the loop goes on to the sixth byte. |
| `Tagging.EvtagEncodeInt` | libevent-2.0.21-stable/event_tagging.c:151-164 | The encoding is appended to the evbuffer. |
| `Tagging.EvtagEncodeTag` | libevent-2.0.21-stable/event_tagging.c:172-192 | The encoding is appended to the evbuffer. |
| `Tagging.EvtagMarshal` | libevent-2.0.21-stable/event_tagging.c:246-252 | The record is appended to the evbuffer. |
| `Tagging.EvtagMarshalInt` | libevent-2.0.21-stable/event_tagging.c:266-286 | The record of the number is appended to the evbuffer. |
| `Tagging.EvtagMarshalBuffer` | libevent-2.0.21-stable/event_tagging.c:254-262 | The record of all bytes of another evbuffer is appended, in chunks that move over. |
| `Tagging.EvtagPeek` | libevent-2.0.21-stable/event_tagging.c:380-384 | The tag in front, and nothing changes. |
| `Tagging.EvtagPayloadLength` | libevent-2.0.21-stable/event_tagging.c:404-418 | The length of the payload in front, or failure exactly when there is none, and nothing changes. |
| `Tagging.DecodeTagInternal` | libevent-2.0.21-stable/event_tagging.c:195-231 | Across chunks, the tag in front of the evbuffer; its bytes are drained exactly when asked for and there was one. It is told exactly when the loop leaves the bytes that were pulled up; nothing is promised of the tag then. |
| `Tagging.DecodeIntInternal` | libevent-2.0.21-stable/event_tagging.c:304-358 | Across chunks, the number at the offset and the length of its encoding; the bytes stay. |
| `Tagging.EvtagDecodeInt` | libevent-2.0.21-stable/event_tagging.c:361-378 | The number in front is drained, or nothing is when there is none. |
| `Tagging.EvtagUnmarshalHeader` | libevent-2.0.21-stable/event_tagging.c:423-436 | The header in front is drained, and its tag and length returned, or less than zero exactly when there is none; what a failure leaves is stated too. It is told exactly when the tag is read outside. |
| `Tagging.EvtagUnmarshal` | libevent-2.0.21-stable/event_tagging.c:452-465 | The payload of the first record moves to the other buffer, and exactly the rest remains; it fails exactly when there is no record. It is told exactly when the tag is read outside. |
| `Tagging.EvtagUnmarshalInt` | libevent-2.0.21-stable/event_tagging.c:470-519 | The number of the first record, and exactly the rest remains; -1 exactly when there is none. It is told exactly when the tag is read outside. |
| `Tagging.EvtagUnmarshalFixed` | libevent-2.0.21-stable/event_tagging.c:524-562 | The payload of the first record exactly where tag and length are right, and exactly the rest remains. It is told exactly when the tag is read outside. |
| `RpcGen.Struct.AddEntry` | libevent-2.0.21-stable/event_rpcgen.py:53-61 | An entry is accepted exactly when its tag is new in the struct. |
| `RpcGen.FindDistinct` | libevent-2.0.21-stable/event_rpcgen.py:250-275 | With distinct tags the switch finds the case of an entry by its tag. |
| `RpcGen.ValueBack` | libevent-2.0.21-stable/event_rpcgen.py:559-760 | Unmarshalling the marshalled value of an entry of any kind returns it and exactly the rest, nested structs included, if these are complete. |
| `RpcGen.ValuesBack` | libevent-2.0.21-stable/event_rpcgen.py:250-273 | The loop collects the complete values of an array, and of an optional entry, in order. |
| `RpcGen.FieldsBack` | libevent-2.0.21-stable/event_rpcgen.py:246-278 | The loop collects the fields of a complete message in order. |
| `RpcGen.CompleteBack` | libevent-2.0.21-stable/event_rpcgen.py:219-340 | The generated unmarshal gives every complete message back. |
| `RpcGen.FilledIs` | libevent-2.0.21-stable/event_rpcgen.py:175-240 | Filling the unset required entries of a message, at every depth, with what their memory holds changes no byte of its marshalled form, completes it, and shows the message as it was exactly when that was complete. |
| `RpcGen.MessageBack` | libevent-2.0.21-stable/event_rpcgen.py:219-340 | For every accepted schema and every message that makes the generated marshal follow no null pointer, the generated unmarshal returns the message with its unset required entries filled in; to the get functions that is the message itself exactly when it is complete. |
| `RpcGen.UnsetNumberSent` | libevent-2.0.21-stable/event_rpcgen.py:223-238 | A required number that is not set is sent as what its memory holds, 0 or the number before it was cleared, and comes back as set. |
| `RpcGen.ReadInside` | libevent-2.0.21-stable/event_rpcgen.py:242-278 | What the generated unmarshal accepts as a message it has read within the bytes pulled up. |
| `RpcGen.UnmarshalValueIs` | libevent-2.0.21-stable/event_rpcgen.py:559-902 | One case takes the record in front, exactly if it has the tag and a payload that the kind of the entry admits. |
| `RpcGen.UnmarshalIs` | libevent-2.0.21-stable/event_rpcgen.py:242-278 | On any bytes: a message is read exactly if they split into records, each with the tag of an entry and a payload that is a value of its kind, messages inside by the same rule, no entry that is not an array occurs twice and every required one occurs; and it is the values of these records, in order. |
| `RpcGen.SecondMissing` | libevent-2.0.21-stable/event_rpcgen.py:275-277 | A message without its second required entry is refused. |
| `RpcGen.MarshalValueCode` | libevent-2.0.21-stable/event_rpcgen.py:573-577 | The code of an entry appends the record of its value to the evbuffer, through evtag. |
| `RpcGen.MarshalStructCode` | libevent-2.0.21-stable/event_rpcgen.py:327-339 | A nested struct is marshalled into an evbuffer of its own, whose bytes become the payload of its record. |
| `RpcGen.MarshalEntryCode` | libevent-2.0.21-stable/event_rpcgen.py:1225-1239 | An array appends the records of its values in order, an optional entry its value if set, a required one what its memory holds; a null pointer is followed exactly for an unset string, or an unset struct that has entries. |
| `RpcGen.MarshalCode` | libevent-2.0.21-stable/event_rpcgen.py:221-240 | The generated marshal appends the entries to the evbuffer in the order of the schema, guarding only optional ones and arrays; it is told exactly when it follows a null pointer. |
| `RpcGen.UnmarshalCode` | libevent-2.0.21-stable/event_rpcgen.py:242-278 | The generated loop with its switch reads the evbuffer to its end and computes the message, or fails, as specified; it is told exactly when a tag is read outside. |
| `RpcGen.UnmarshalValueCode` | libevent-2.0.21-stable/event_rpcgen.py:559-902 | The code of one case takes one value from the evbuffer, through evtag, or fails, as specified. |
| `RpcGen.UnmarshalStructCode` | libevent-2.0.21-stable/event_rpcgen.py:301-325 | The payload of a nested struct is moved to an evbuffer of its own and unmarshalled there as a message. |
| `RpcGen.SendAndReceive` | libevent-2.0.21-stable/event_rpcgen.py:219-340 | Through evbuffers: a message is marshalled and unmarshalled; what comes back is the message with its gaps filled, which shows as the message itself exactly when it is complete. |
| `Locks.SortLocks` | libevent-2.0.21-stable/evthread-internal.h:325-332 | Two locks come out in ascending order, where neither is null. |
| `Locks.NeverShared` | libevent-2.0.21-stable/evthread-internal.h:336-354 | In every run no lock is held by two threads. |
| `Locks.StaysInOrder` | libevent-2.0.21-stable/evthread-internal.h:336-354 | In every run each thread takes its locks in ascending order. |
| `Locks.NoDeadlock` | libevent-2.0.21-stable/evthread-internal.h:334-354 | In every reachable state with a thread in the middle of locking or unlocking, some thread in the middle can go on. |
| `Locks.UnsortedDeadlock` | libevent-2.0.21-stable/evthread-internal.h:324-332 | Without the sorting, two threads can block each other for ever. |
| `Arc4Random.EveryByteOnce` | libevent-2.0.21-stable/arc4random.c:96-104 | In the state array every byte occurs exactly once. |
| `Arc4Random.Arc4.constructor` | libevent-2.0.21-stable/arc4random.c:96-104 | The state starts as the identity. |
| `Arc4Random.Arc4.GetByte` | libevent-2.0.21-stable/arc4random.c:409-420 | One step of RC4; the state stays a permutation. |
| `Arc4Random.Arc4.SwapBytes` | libevent-2.0.21-stable/arc4random.c:107-121 | Two bytes of the state change places, and no other moves. |
| `Arc4Random.ScheduleIs` | libevent-2.0.21-stable/arc4random.c:107-121 | The key schedule is 256 turns, each with the next byte of the repeated key: i goes on by one, j by the byte at i and that of the key, and the two bytes change places. |
| `Arc4Random.Arc4.AddRandom` | libevent-2.0.21-stable/arc4random.c:107-121 | The key schedule of RC4 from the present state, over 256 bytes of the repeated key; the state stays a permutation. |
| `Arc4Random.MinIsRemainder` | libevent-2.0.21-stable/arc4random.c:505-538 | The computation of min on wrapping words is 2^32 mod upper_bound. |
| `Arc4Random.Unbiased` | libevent-2.0.21-stable/arc4random.c:505-538 | Each result below upper_bound has exactly (2^32 - min) / upper_bound accepted draws, and more than half of all draws are accepted. |
| `Arc4Random.Uniform` | libevent-2.0.21-stable/arc4random.c:506-538 | The result is the residue of the first draw that is not below min. |

## Left out

- Evbuffer flags (pinned, immutable, reference and mmap chunks), callbacks and their counters, sendfile and socket I/O: outside the byte queue. (The counter of `evbuffer_prepend` grows by `chain->misalign` on the path with a new chunk.)
- Locks, threads and allocation failure are left out except where a parameter stands for them; a freed chunk is just no longer reachable.
- `size_t` and `int` do not wrap except where the wrap matters (bucket updates, ticks, encodings, `arc4random_uniform`).
- In `evbuffer_drain` the test `chain == *buf->last_with_datap` cannot hold while bytes remain, and is not modelled.
- EvReserve.ReserveSpace: with two vectors or more; one vector is `EvReserve.ReserveOne`. A negative size, `evbuffer_expand` and `evbuffer_add_printf` are left out.
- EvSpares.ReserveFillCommit: with two vectors or more, filled from the first one on.
- EvReserve.CommitSpace: a vector is memory with a start, so that two chunks never have the same address.
- Edge-triggered flags, signals and reports of `epoll_wait`; what the /dev/poll driver does with a closed descriptor. Runs close a descriptor only when no event is registered on it; `InterestSets.EpollApplyOneChange` covers every earlier kernel state.
- MinHeaps.MinHeap.Erase: the dead store to the last slot when the last element is erased.
- `timeout_correct`, for clocks that go back: the clock of the model does not.
- EventLoops.EventBase.BaseLoop: what a callback does is any list of actions; the re-add of a persistent timer is one of them, and `virtual_event_count` is only read.
- `HT_REPLACE`, `HT_FOREACH_FN`: re-inserting an element would count it twice.
- HashTables.HashTable.Insert: requires that no element with the same key is in the table; the load factor is a fraction.
- DnsNames.DnsnameToLabels: names start below offset 0x3f01, or the room is at most 0x4000, because a pointer has 14 bits and the code does not check the offset.
- Transaction ids are any number, unique or not; inflight requests can exceed the maximum; the timers that send probes, a base without nameservers, `evdns_base_clear_nameservers_and_suspend` and the parsing of replies are not modelled.
- DnsRequests.EvdnsBase.ReplyError: a comment says that after SERVERFAILED the request is left to time out, but the code passes the failure up at once, and so does the model.
- DnsRequests.EvdnsBase.Resolve: a name is told by its place in the search, and its text is not built; domains added to the base while a search is under way are left out.
- DnsRequests.EvdnsBase.RunCallback: the callback stays in the queue until it has run; the code takes it off before.
- RateLimits.Group.RefillCallback: with min_share 0 a group resumes at limit 0, so that a positive limit outside suspension is kept for min_share >= 1.
- RateLimits.Bufferevent.DecrementLimit: a limit that leaves the range of ev_ssize_t wraps, which C leaves open; the clock is a parameter, in ticks.
- RateLimits.Run: members stay in the group, and credits to the group itself are not among the steps.
- Tagging.DecodeTagInternal: where the loop goes past five bytes nothing is promised; from there on it shifts a 32-bit number by 35 bits or more, which C leaves undefined.
- Tagging.EvtagUnmarshalHeader: a length over INT_MAX is an error; the code returns it as a negative number, and only -1 counts as an error there.
- The documentation calls the nibbles of an integer big-endian; the code writes the least significant one first, and so does the model.
- Timeval records, `evtag_consume` and `evtag_peek_length`.
- Parsing `.rpc` files, growth of arrays and printing of C are left out.
- Locks.NoDeadlock: each thread locks one pair at a time, and locks are not recursive.
- Seeding of the random generator.
- Arc4Random.Uniform: the draws are given, and a draw that is accepted is among them.
