# Verified models of the libevent core

A Dafny model of the stateful parts of the libevent library that the Syinx server is built on, with
proofs that they keep their representation invariants and do what they are for. Code that works on
mutable structures is modelled by classes, linked nodes, arrays and loops, each method proved against
a function of the old state; what those functions guarantee is proved beside them as lemmas over all
inputs, states and runs.

`dafny verify dfyconfig.toml` checks the whole project.

## What is modelled

- **evbuffer** (`EvBuffer*.dfy`): a byte queue as a singly linked list of chunks with free space on
  both sides of the data and a cached pointer-to-pointer to the last chunk with data.
  `EvBuffer.Valid` is the invariant documented with the structure, together with the accounting of
  `n_add_for_cb` and `n_del_for_cb`; `EvBuffer.Contents` is the flat string. Every operation keeps
  the first and is proved to do to the second what it should, in all cases of freezing, failing,
  realigning, splicing, resizing and chunk reuse. The pointer-to-pointer is the datatype `NextPtr`:
  the `first` field of a buffer or the `next` field of a chunk.
- **evmap, changelist, epoll** (`EpollTable`, `Epoll`, `EvMap`, `FdSteps`, `EventBaseIo`, `Batching`,
  `BatchingRuns`): per-fd
  counters, the changelist that coalesces changes, the 512-entry table, and a kernel that maps fds to
  interest sets and may answer ENOENT, EEXIST or refuse an fd. `EventBase.Valid` says for every fd how
  wanted events, queued change and registration hang together, also when the kernel drops an fd.
  `disturbed` is the set of fds whose registration somebody else has changed or the kernel refused;
  for all others the batched and the immediate backend are proved to agree after a dispatch. `FdSteps`
  says what every operation does to one fd, the triggering mode included; the methods of `EventBase`
  are proved to make exactly these steps, so that what `Batching` proves about runs of steps holds of
  runs of the methods (`BatchingRuns`).
- **event base** (`Events`, `MinHeap`, `EventState`, `EventSteps`, `EventOrder`, `EventQueues`, `EventLaws`): flags,
  active queues, the later queue, the timeout heap with its indices, common timeout lists with their
  internal timers, and the counters. `EventState.Ok` is the accounting invariant and
  `EventState.AllCovered` says that the heap also speaks for the common timeout lists; `EventOrder` is
  about the order in which events are queued.
- **DNS names** (`DnsNames`, `DnsText`, `DnsLabels`, `DnsQuestions`): `Decodes` defines what name is at
  an offset of a message (section 4.1.4 of RFC 1035), independently of both the reader and the writer;
  `DnsText.Outcome` says what comes of writing one.
- **tagged data** (`TagFormat`, `TagStream`, `TagLaws`, `Tagging`): the encoding as functions on strings,
  what the readers accept and leave behind, and the methods that work on evbuffers.
- **rate limiting** (`Division`, `TokenBucket`, `BufferEvent`, `Bandwidth`), **evdns requests** (`DnsRequestLists`,
  `DnsRequests`), **resolver search order** (`DnsSearch`), **arc4random** (`Arc4`).

## Where the code is not what it seems

- `evbuffer_reserve_space` with several pieces and size 0 fails an EVUTIL_ASSERT exactly when the last
  chunk has data and no space (`EvBufferReserve.ReserveSpace`, `EvBufferFill.FullBufferFailsAssertion`).
- A reservation in one piece is refused by `evbuffer_commit_space` exactly when the chunk chosen is
  neither the first one with space nor the last one, which can be told before the call
  (`EvBufferReserve.ReserveSpace`, `EvBufferFill.SingleReservationIsRefused`).
- `epoll_apply_one_change` looks for EPOLLET in the read and the write change only. So batching can be
  observed in that flag, when EV_CLOSED is involved, and also when the triggering mode of an fd changes
  while nothing is wanted of it (`Batching.BatchingShowsExactly`, `Batching.OneModeIsInvisible`, and the
  three runs behind them).
- A name with an empty label does not survive a round trip (`DnsText.ReadsBack`), and
  `dnsname_to_labels` stores its terminating zero without looking whether it fits:
  `DnsText.ZeroOverrunExactly` says for which calls it does not. The model stops there with the outcome
  `ZeroOverrun` instead of storing it.
- Path independence of the token bucket ends where 2^31 ticks pass between updates
  (`TokenBucket.UpdateInSteps`), and `evtag_peek_length` agrees with `evtag_consume` only up to
  lengths of 2^31 (`TagStream.PeekIsConsume`).
- `bufferevent_disable_hard_` without EV_WRITE may leave the write side armed after giving up a
  connection attempt (`BufferEvent.Bufferevent.DisableHard`, with a run of the interface that leads
  there). Its only caller (`http.c`, line 1438) passes EV_READ and EV_WRITE, and so never does.
- `decode_tag_internal` asks for five bytes and may read a sixth; `Tagging.DecodeTagInternal` says
  exactly when that one lies behind the memory of a chunk.
- `min_heap_erase_` writes the index back even if it erased the last element, which has no effect that
  the model could show.

## Model

| member | source | states |
|---|---|---|
| EvBufferCore.EvBuffer.constructor | Shard/include/libevent-master/evbuffer-internal.h:74-99 | an empty buffer meets the representation invariant: lengths add up, offsets fit, `last` is the last chunk, the cached pointer leads to the last chunk with data |
| EvBufferCore.ChainNew | Shard/include/libevent-master/buffer.c:158-195 | a chunk of at least the size asked for, or none exactly when the size is above the limit |
| EvBufferCore.FlatEmptyIff | Shard/include/libevent-master/buffer.c:279-282 | a list of chunks is an empty string iff no chunk has data |
| EvBufferCore.FreeTrailingEmptyChains | Shard/include/libevent-master/buffer.c:292-305 | drops exactly the chunks behind the last data, all of them if there is no data; the string stays and the returned link is where the next chunk goes |
| EvBufferCore.ChainInsert | Shard/include/libevent-master/buffer.c:310-329 | the chunk replaces the empty ones at the end and its bytes are appended; the invariant is kept |
| EvBufferAdd.ChainAlign | Shard/include/libevent-master/buffer.c:1930-1937 | moving the data to the front of its chunk keeps the string |
| EvBufferAdd.Add | Shard/include/libevent-master/buffer.c:1746-1841 | appends all the data or fails without any change, and exactly for which inputs it fails |
| EvBufferPrepend.Prepend | Shard/include/libevent-master/buffer.c:1843-1927 | puts all the data in front; it can fail halfway only for a remainder larger than a chunk, and then exactly the part that fitted has been written and counted |
| EvBufferDrain.Drain | Shard/include/libevent-master/buffer.c:1119-1185 | drops exactly the first min(len, length) bytes, or fails without any change when the front is frozen |
| EvBufferDrain.CopyoutFrom | Shard/include/libevent-master/buffer.c:1208-1273 | copies exactly the bytes of the string from the position on, across chunks, without changing the buffer |
| EvBufferDrain.Remove | Shard/include/libevent-master/buffer.c:1188-1200 | what is copied out and what is left concatenate to the old contents; the result is the number of bytes cut to a C int |
| EvBufferMove.AppendChain | Shard/include/libevent-master/buffer.c:907-924 | the spliced lists hold both strings in order, with `last` and the cached pointer right again |
| EvBufferMove.PrependChain | Shard/include/libevent-master/buffer.c:966-982 | the same with the other list in front, where the cached pointer may still have to move |
| EvBufferMove.AddBuffer | Shard/include/libevent-master/buffer.c:984-1028 | dst becomes dst + src and src empty, in all frozen and empty cases; the two buffers share no chunk afterwards |
| EvBufferMove.PrependBuffer | Shard/include/libevent-master/buffer.c:1073-1117 | dst becomes src + dst and src empty, with the same frame |
| EvBufferMove.AdvanceLastWithData | Shard/include/libevent-master/buffer.c:722-740 | from a pointer that lags behind, finds the last chunk with data |
| EvBufferMove.RemoveBuffer | Shard/include/libevent-master/buffer.c:1278-1366 | moves exactly min(n, length) bytes: dst becomes dst + prefix and src the rest, whole chunks moved and the last part copied; both stay consistent and apart; the result is that number cut to a C int |
| EvBufferPullup.PulledValues | Shard/include/libevent-master/buffer.c:1368-1478 | after merging chunks the string is the same, and where the last chunk with data is then |
| EvBufferPullup.Gather | Shard/include/libevent-master/buffer.c:1438-1458 | the copied bytes are the wanted ones, and the two removal flags say whether the last data chunk or the one before it was used up |
| EvBufferPullup.Pullup | Shard/include/libevent-master/buffer.c:1368-1478 | contents unchanged, first n bytes contiguous in the first chunk, which chunk that is, the cached pointer repaired in every case; fails exactly when n is 0, too long, or needs too large a chunk |
| EvBufferExpand.ExpandSinglechain | Shard/include/libevent-master/buffer.c:1955-2063 | afterwards the chosen chunk has the space in one piece; contents unchanged; which chunk is chosen in every case |
| EvBufferReserve.ExpandFast | Shard/include/libevent-master/buffer.c:2067-2175 | afterwards at most n chunks from the last data on have the space; contents unchanged |
| EvBufferReserve.ReadSetupVecs | Shard/include/libevent-master/buffer.c:2239-2275 | the pieces are the free space of consecutive chunks and add up to at least (or exactly) the wanted size |
| EvBufferReserve.ReserveSpace | Shard/include/libevent-master/buffer.c:689-720 | pieces of at least the size within the limit, contents unchanged; exactly when the EVUTIL_ASSERT on the way fails; and of a single piece any part can be committed iff it does not skip space: a condition on the chunks before the call |
| EvBufferReserve.ReserveOne | Shard/include/libevent-master/buffer.c:705-712 | the same for one piece: for every part of it, a commit is accepted iff the chunk chosen does not lie between the first one with space and the last one |
| EvBufferReserve.ReservedMemoryIsFree | Shard/include/libevent-master/buffer.c:689-720 | the pieces lie behind the data of their chunks and inside their memory, and no two overlap |
| EvBufferFill.WriteReserved | Shard/include/libevent-master/buffer.c:689-720 | writing into a reserved piece leaves the contents alone and is what a commit will add |
| EvBufferReserve.CommitSpace | Shard/include/libevent-master/buffer.c:742-810 | appends the concatenation of the committed prefixes in order iff the pieces match consecutive chunks; else changes nothing |
| EvBufferReserve.ReservedIsCommittable | Shard/include/libevent-master/buffer.c:689-810 | any prefix of a reservation in several pieces, each cut anywhere, can be committed |
| EvBufferReserve.SingleReservationCommits | Shard/include/libevent-master/buffer.c:742-810 | a part of a piece can be committed iff its chunk is one where committing can start |
| EvBufferFill.Fill | Shard/include/libevent-master/buffer.c:689-810 | reserving, writing any data into the pieces and committing what was written appends exactly the data; it fails exactly when the reservation does, or a single piece skips space, and then the contents stay |
| EvBufferFill.WritePieces | Shard/include/libevent-master/buffer.c:689-720 | data spread over the pieces leaves the contents alone, and what a commit of the parts used will add is the data |
| EvBufferFill.SkippedChunks | Shard/include/libevent-master/buffer.c:1955-2063 | chunks for which evbuffer_expand_singlechain picks one that skips space |
| EvBufferFill.SingleReservationIsRefused | Shard/include/libevent-master/buffer.c:689-810 | a buffer with those chunks, of whose single reserved piece evbuffer_commit_space refuses every part |
| EvBufferFill.FullBufferFailsAssertion | Shard/include/libevent-master/buffer.c:2256-2262 | a buffer for which the EVUTIL_ASSERT fails |
| EvBufferSearch.PtrSetTo | Shard/include/libevent-master/buffer.c:2637-2687 | the position is the one asked for and names the right byte of the right chunk, or the error cases |
| EvBufferSearch.PtrMemcmp | Shard/include/libevent-master/buffer.c:2693-2727 | comparing chunk by chunk is comparing the string |
| EvBufferSearch.SearchRange | Shard/include/libevent-master/buffer.c:2735-2797 | the first occurrence at or after start that ends by end, or nothing exactly if there is none |
| EvBufferEol.FindEolChar | Shard/include/libevent-master/buffer.c:1512-1537 | the block-wise search finds the first of the two line end bytes |
| EvBufferEol.Scan | Shard/include/libevent-master/buffer.c:1490-1559 | the first byte sought at or after the position, across chunks |
| EvBufferEol.Strspn | Shard/include/libevent-master/buffer.c:1561-1598 | the length of the longest run of line end bytes, across chunks |
| EvBufferEol.PtrSubtract | Shard/include/libevent-master/buffer.c:2617-2635 | the position that many bytes before, also when it is in an earlier chunk |
| EvBufferEol.GetChr | Shard/include/libevent-master/buffer.c:1601-1611 | the byte of the string at a position |
| EvBufferEol.EolIsUnique | Shard/include/libevent-master/buffer.c:1613-1701 | each of the five line end styles determines at most one place and length |
| EvBufferEol.EolExists | Shard/include/libevent-master/buffer.c:1613-1701 | and one whenever there is a line end at all |
| EvBufferEol.SearchEol | Shard/include/libevent-master/buffer.c:1613-1701 | finds that first line end, or nothing exactly if there is none |
| EvBufferEol.Readln | Shard/include/libevent-master/buffer.c:1703-1740 | old contents = line + terminator + new contents, with the first terminator of the style; nothing changes if there is none |
| EpollTable.TableFollowsRule | Shard/include/libevent-master/epolltable-internal.h:43-1166 | all 512 entries of the table are what the documented rule says, extended with the close bit |
| EpollTable.Lookup | Shard/include/libevent-master/epolltable-internal.h:120-130 | the index expression finds the entry of a change, with its old events |
| EpollTable.TableMeansTarget | Shard/include/libevent-master/epolltable-internal.h:43-90 | the entry of a valid change leads to (old minus deleted) plus added: ADD and MOD name exactly that, DEL is for the empty set, no operation for no change |
| Epoll.ApplyOneChange | Shard/include/libevent-master/epoll.c:266-353 | whatever was registered before, retries included: the fd ends registered for exactly the wanted events, or the refusal is reported |
| Epoll.ApplyChanges | Shard/include/libevent-master/epoll.c:355-372 | all changes are carried out even if some fail |
| Epoll.AppliedAllAt | Shard/include/libevent-master/epoll.c:355-372 | with one change for each fd, each fd gets its own |
| EvMap.WantedIsUnion | Shard/include/libevent-master/evmap.c:951-980 | the counters of an fd stand for the union of the kinds of its pending events |
| EvMap.QueueAdd | Shard/include/libevent-master/evmap.c:865-893 | queueing an addition keeps queued change, kernel and wanted events in step |
| EvMap.QueueDel | Shard/include/libevent-master/evmap.c:895-946 | so does queueing a deletion, which forgets an addition the kernel has not heard of |
| EvMap.ForgetUnwanted | Shard/include/libevent-master/evmap.c:895-946 | and so does the kernel dropping an fd of which nothing is wanted |
| EvMap.ApplyQueued | Shard/include/libevent-master/epoll.c:266-353 | carrying out the queued change then makes the registration the wanted one |
| EventBaseIo.EventBase.MakeSpace | Shard/include/libevent-master/evmap.c:204-232 | the map grows by doubling to hold the slot, or fails exactly for slots beyond the largest size |
| EventBaseIo.EventBase.GetOrConstruct | Shard/include/libevent-master/evmap.c:834-863 | the change of an fd, found or fresh; slots and changes keep naming each other |
| EventBaseIo.EventBase.ChangelistAdd | Shard/include/libevent-master/evmap.c:865-893 | only the change of this fd is affected, and how |
| EventBaseIo.EventBase.ChangelistDel | Shard/include/libevent-master/evmap.c:895-946 | the same for deletions |
| EventBaseIo.EventBase.IoAdd | Shard/include/libevent-master/evmap.c:272-349 | keeps every fd in step; return value and event list in every case, failures included; the fd makes exactly the step of asking for the new kinds in the mode of this event, queued or registered, and no other fd makes any |
| EventBaseIo.EventBase.IoDel | Shard/include/libevent-master/evmap.c:353-417 | the same for deleting, in the mode of the event deleted; the event is gone even if the backend fails |
| FdSteps.WantShows | Shard/include/libevent-master/evmap.c:320-344 | after asking for kinds in a mode: each of them is queued for addition in that mode, or, without a changelist, all that is wanted is registered, edge-triggered iff this mode is and EV_READ or EV_WRITE is among the new kinds |
| FdSteps.UnwantShows | Shard/include/libevent-master/evmap.c:393-411 | after ceasing to want kinds: those the kernel knows of are queued for deletion in that mode and the others forgotten, or, without a changelist, the rest is registered or nothing is |
| EventBaseIo.EventBase.RemoveAll | Shard/include/libevent-master/evmap.c:778-797 | the changelist is emptied and no slot refers to it any more |
| EventBaseIo.EventBase.ApplyQueuedChanges | Shard/include/libevent-master/epoll.c:460-461 | after the first part of dispatch every undisturbed fd is registered for exactly the events its pending events ask for; every fd that is not refused makes the step of carrying out its change |
| EventBaseIo.AllApplied | Shard/include/libevent-master/evmap.c:834-946 | the same as a statement about the values, for any changelist and any kernel |
| EventBaseIo.EventBase.Reinit | Shard/include/libevent-master/evmap.c:606-664 | with a new, empty kernel set everything wanted is asked for again, in the mode of the first event of each fd, and which fds fail |
| Batching.DispatchCatchesUp | Shard/include/libevent-master/evmap.c:834-946 | over every run of adds, deletes, drops by the kernel and dispatches: one dispatch brings the batched registration to the wanted events, where the immediate one is already |
| Batching.BatchingIsInvisible | Shard/include/libevent-master/epoll.c:266-414 | two event bases with the same events, one batching and just dispatched, one immediate: the kernels agree on every undisturbed fd |
| Batching.BatchingShowsExactly | Shard/include/libevent-master/epoll.c:266-414 | after any run and one dispatch the batched and the immediate registration are the same, edge flag included, iff nothing is wanted or two flags agree that are computed from the steps alone |
| Batching.OneModeIsInvisible | Shard/include/libevent-master/epoll.c:266-414 | in every run of one triggering mode, level-triggered or without EV_CLOSED, they are the same |
| Batching.QueueIsPending | Shard/include/libevent-master/evmap.c:865-946 | what the changelist holds after any run: for each kind the mode of its last change since the last dispatch, unless it is wanted neither now nor then |
| Batching.ClosedShowsBatching | Shard/include/libevent-master/epoll.c:266-353 | a run of one mode after which they differ: EV_READ, then EV_CLOSED |
| Batching.JoinedClosedShowsBatching | Shard/include/libevent-master/epoll.c:266-353 | another one, in which no step is of EV_CLOSED alone |
| Batching.ModeChangeShowsBatching | Shard/include/libevent-master/epoll.c:266-353 | and one without EV_CLOSED in which the mode changes while nothing is wanted: the level-triggered event becomes edge-triggered |
| BatchingRuns.Run | Shard/include/libevent-master/evmap.c:272-417 | over any run of calls for one fd (adding, deleting, closing and reopening, dispatching) the event base holds the events of the run, and the fd is what the steps of the run make of it |
| BatchingRuns.RunBoth | Shard/include/libevent-master/epoll.c:266-414 | the same run on two event bases, one with a changelist and one without: the registrations are the same, edge flag included, iff the condition of `Batching.BatchingShowsExactly` holds |
| MinHeap.TopIsEarliest | Shard/include/libevent-master/minheap-internal.h:51-69 | the top of a heap is not later than any other event |
| MinHeap.UpStep | Shard/include/libevent-master/minheap-internal.h:161-171 | one step up moves the only possible violation to the parent |
| MinHeap.DownStep | Shard/include/libevent-master/minheap-internal.h:173-186 | one step down moves it to the earlier child |
| MinHeap.EventHeap.Push | Shard/include/libevent-master/minheap-internal.h:71-77 | the event is in the heap, everything else too; every event knows its index |
| MinHeap.EventHeap.Top | Shard/include/libevent-master/minheap-internal.h:69-69 | an earliest event, or none exactly if the heap is empty |
| MinHeap.EventHeap.Erase | Shard/include/libevent-master/minheap-internal.h:96-115 | exactly that event is gone, and the rest is a heap |
| EventState.RemoveActiveOk | Shard/include/libevent-master/event.c:3270-3285 | leaving an active queue keeps the whole invariant: queues, lists, heap, flags and both counters |
| EventState.InsertActiveOk | Shard/include/libevent-master/event.c:3411-3430 | so does entering one |
| EventState.RemoveLaterOk | Shard/include/libevent-master/event.c:3286-3300 | and leaving the later queue |
| EventState.InsertLaterOk | Shard/include/libevent-master/event.c:3432-3447 | and entering it |
| EventState.RemoveTimeoutOk | Shard/include/libevent-master/event.c:3301-3321 | and leaving the heap or a common timeout list |
| EventState.InsertTimeoutOk | Shard/include/libevent-master/event.c:3449-3471 | and entering the heap, or the list at the place that keeps it in order of time |
| EventQueues.EventBase.QueueRemoveInserted | Shard/include/libevent-master/event.c:3258-3269 | flags, queues, heap, lists and counters become exactly those of `EventState.RemoveInserted`, the invariant is kept and every other event untouched |
| EventQueues.EventBase.QueueInsertInserted | Shard/include/libevent-master/event.c:3395-3409 | flags, queues, heap, lists and counters become exactly those of `EventState.InsertInserted`, the invariant is kept and every other event untouched |
| EventQueues.EventBase.QueueRemoveActive | Shard/include/libevent-master/event.c:3270-3285 | flags, queues, heap, lists and counters become exactly those of `EventState.RemoveActive`, the invariant is kept and every other event untouched |
| EventQueues.EventBase.QueueInsertActive | Shard/include/libevent-master/event.c:3411-3430 | flags, queues, heap, lists and counters become exactly those of `EventState.InsertActive`, the invariant is kept and every other event untouched |
| EventQueues.EventBase.QueueRemoveActiveLater | Shard/include/libevent-master/event.c:3286-3300 | flags, queues, heap, lists and counters become exactly those of `EventState.RemoveLater`, the invariant is kept and every other event untouched |
| EventQueues.EventBase.QueueInsertActiveLater | Shard/include/libevent-master/event.c:3432-3447 | flags, queues, heap, lists and counters become exactly those of `EventState.InsertLater`, the invariant is kept and every other event untouched |
| EventQueues.EventBase.QueueRemoveTimeout | Shard/include/libevent-master/event.c:3301-3321 | flags, queues, heap, lists and counters become exactly those of `EventState.RemoveTimeout`, the invariant is kept and every other event untouched |
| EventQueues.EventBase.QueueInsertTimeout | Shard/include/libevent-master/event.c:3449-3471 | flags, queues, heap, lists and counters become exactly those of `EventState.InsertTimeout`, the invariant is kept and every other event untouched |
| EventQueues.InsertedInorder | Shard/include/libevent-master/event.c:3365-3393 | searching from the end finds the place behind the last event that is not later |
| EventQueues.EventBase.EventDel | Shard/include/libevent-master/event.c:2844-2933 | the event is pending nowhere afterwards; no other event changes |
| EventQueues.EventBase.EventActive | Shard/include/libevent-master/event.c:2953-3002 | the event is active with its results added up |
| EventQueues.EventBase.EventActiveLater | Shard/include/libevent-master/event.c:3012-3027 | the event is active or in the later queue, with its results added up |
| EventQueues.EventBase.CallbackActivate | Shard/include/libevent-master/event.c:3040-3069 | the event moves to its active queue, from the later queue if need be; what is returned |
| EventQueues.EventBase.EventAdd | Shard/include/libevent-master/event.c:2631-2801 | fails exactly for a finalizing event or when the map refuses, and then changes nothing; else an I/O event that was in no active queue is in the map, the timeout is pending at `now` plus the time given or at the time given, with its common index, an event that was active for its old timeout is not any more, and no other event changes but internal timers |
| EventQueues.AddedEvent | Shard/include/libevent-master/event.c:2631-2801 | the same as a law about the values: flags, time, result and priority of the event after adding it, in every case |
| EventQueues.EventBase.Schedule | Shard/include/libevent-master/event.c:1465-1472 | the internal timer of a list is pending at exactly the time of its head |
| EventQueues.EventBase.Add | Shard/include/libevent-master/event.c:2518-2535 | event_add does that, with a relative time, and keeps accounting and the coverage of the common timeout lists |
| EventQueues.EventBase.Del | Shard/include/libevent-master/event.c:2803-2819 | event_del keeps them too; the event is pending nowhere and no other changes |
| EventQueues.EventBase.MakeActive | Shard/include/libevent-master/event.c:2935-2950 | and event_active |
| EventQueues.EventBase.MakeActiveLater | Shard/include/libevent-master/event.c:3004-3027 | and event_active_later_, with the results added up if it is queued already |
| EventSteps.HeapCoversAll | Shard/include/libevent-master/event.c:1465-1498 | when nothing is active, some event in the heap is no later than any pending timeout, also of those in common timeout lists |
| EventSteps.ShrinkCovers | Shard/include/libevent-master/event.c:2844-2933 | a list that only loses events stays covered by its internal timer |
| EventSteps.TimeoutAddedCovers | Shard/include/libevent-master/event.c:2701-2792 | all lists are covered after an event got a timeout |
| EventQueues.EventBase.TimeoutNext | Shard/include/libevent-master/event.c:3177-3212 | the wait is the time to the earliest heap event; with nothing active it never ends after a pending deadline |
| EventQueues.EventBase.TimeoutProcess | Shard/include/libevent-master/event.c:3215-3239 | makes active exactly the heap events due at `now`, for that reason alone, and leaves all others as they were; the due events come last in the queues of their priorities, the earliest first, and the others keep their order |
| EventQueues.EventBase.CommonTimeoutCallback | Shard/include/libevent-master/event.c:1477-1498 | makes active exactly the due prefix of the list, queued in list order, and covers the rest again |
| EventQueues.EventBase.TakeNext | Shard/include/libevent-master/event.c:1649-1700 | the first callback of a queue leaves it, deleted unless it persists |
| EventQueues.EventBase.PersistClosure | Shard/include/libevent-master/event.c:1577-1640 | a persistent timeout is pending again one interval after it was due or after now, not before now; also one of length zero if it is a common one |
| EventQueues.EventBase.PrioritySet | Shard/include/libevent-master/event.c:2390-2403 | refused while active or out of range; otherwise the queues stay right |
| EventQueues.EventBase.MakeLaterEventsActive | Shard/include/libevent-master/event.c:3473-3486 | the later queue empties into the active queues of the priorities, in order |
| EventQueues.EventBase.InitCommonTimeout | Shard/include/libevent-master/event.c:1502-1574 | one list for each duration, at most 256; existing events keep their state |
| EventQueues.Accounting | Shard/include/libevent-master/event.c:3998-4056 | in every reachable state: in the active queue of its priority iff ACTIVE, in the later queue iff ACTIVE_LATER, never both; event_count_active is the queue lengths and event_count the flags held by non-internal events |
| EventOrder.ActiveOrder | Shard/include/libevent-master/event.c:2953-3069 | first in, first out: an event that becomes active goes to the end of the queue of its priority, one that is active keeps its place, and all others keep their order |
| EventOrder.LaterOrder | Shard/include/libevent-master/event.c:3012-3027 | the same for the later queue |
| EventOrder.DeletedOrder | Shard/include/libevent-master/event.c:2844-2933 | deleting an event leaves all others in their order |
| EventOrder.FiredOrder | Shard/include/libevent-master/event.c:3226-3238 | an event whose time has come leaves its place in any queue and goes to the end of the queue of its priority |
| EventLaws.DeleteTwice | Shard/include/libevent-master/event.c:2844-2933 | deleting twice is deleting once |
| EventLaws.ActivateTwice | Shard/include/libevent-master/event.c:2953-3002 | making an event active twice is making it active once with both results |
| EventLaws.ActivateThenDelete | Shard/include/libevent-master/event.c:2844-3002 | deleting an idle event that was made active restores queues and counters exactly |
| EventLaws.AddThenDelete | Shard/include/libevent-master/event.c:2631-2933 | deleting an idle event that was added restores everything but its last timeout, unless it headed a common timeout list |
| EventLaws.AddCommonThenDelete | Shard/include/libevent-master/event.c:2631-2933 | and in that case nothing but the list's internal timer may differ |
| DnsNames.NameParse | Shard/include/libevent-master/evdns.c:976-1030 | on any packet, pointer cycles included: ends, reads inside the packet, writes inside the buffer; succeeds iff there is a name there that fits; then returns it joined with dots and the offset behind it, else leaves the offset |
| DnsNames.DecodesOnce | Shard/include/libevent-master/evdns.c:976-1030 | a message has at most one name at an offset, read with one number of jumps (section 4.1.4 of RFC 1035) |
| DnsNames.JumpsAreFew | Shard/include/libevent-master/evdns.c:976-1030 | a name that can be read takes at most as many jumps as the packet has bytes, so the limit of the original loses no name |
| DnsNames.AppendLabel | Shard/include/libevent-master/evdns.c:1008-1024 | one label more in the output, or no room for it |
| DnsNames.ReadPointer | Shard/include/libevent-master/evdns.c:990-1002 | the target of a compression pointer, or proof that there is no name |
| DnsText.ReadsBack | Shard/include/libevent-master/evdns.c:1614-1678 | a name is the join of its labels iff it is empty or has no empty label |
| DnsText.JoinWhole | Shard/include/libevent-master/evdns.c:1614-1678 | of a name with nothing behind an empty label only a final dot is lost |
| DnsText.JoinLabelsOnly | Shard/include/libevent-master/evdns.c:1614-1678 | with an empty label only a shorter name can be read back |
| DnsLabels.DecodesLonger | Shard/include/libevent-master/evdns.c:1614-1678 | a name that can be read stays the same when later bytes are appended |
| DnsLabels.DnsNameToLabels | Shard/include/libevent-master/evdns.c:1574-1678 | the bytes written read back as the name, and all earlier names and all suffixes in the table still do; the outcome, error and end included, is a function of table, room and name; the table keeps what it had and takes what was spelled out |
| DnsText.EncodedExactly | Shard/include/libevent-master/evdns.c:1614-1678 | a name is encoded iff it has at most 255 bytes, the part before the first suffix in the table has labels of at most 63, and that part and the pointer or final zero fit |
| DnsText.LabelTooLongExactly | Shard/include/libevent-master/evdns.c:1614-1678 | the error for a long label, iff that part has one and the labels before it fit |
| DnsText.NoRoomExactly | Shard/include/libevent-master/evdns.c:1614-1678 | the error for no room, iff the name is too long as a whole, or a part of it that comes before a long label, or the whole encoding but for the final zero alone, does not fit |
| DnsText.ZeroOverrunExactly | Shard/include/libevent-master/evdns.c:1671-1675 | the final zero falls behind the buffer iff the name and its labels have the right size, the last label is not empty, the table knows no suffix of the name, and the labels end with the last byte of the buffer |
| DnsText.WithoutTable | Shard/include/libevent-master/evdns.c:1614-1678 | all these outcomes without a table, and where the encoding ends |
| DnsText.KnownFromIsFirst | Shard/include/libevent-master/evdns.c:1574-1600 | the suffix that is replaced by a pointer is the first one behind a dot that the table has |
| DnsText.NewEntriesAre | Shard/include/libevent-master/evdns.c:1614-1665 | what is spelled out is offered to the table: every suffix of the name that is written out, with the offset where it starts, nothing else, in order |
| DnsText.TakenIs | Shard/include/libevent-master/evdns.c:1587-1604 | of which it takes as many, from the first on, as fit in 128 entries |
| DnsText.WrittenAgain | Shard/include/libevent-master/evdns.c:1574-1678 | a name that was encoded with room in the table is two bytes when it is written again, wherever there is room for two |
| DnsLabels.NameTwice | Shard/include/libevent-master/evdns.c:1574-1678 | the same with the methods: a name written twice in a row, the second time as a pointer, and both can be read |
| DnsText.ZeroOverrunHappens | Shard/include/libevent-master/evdns.c:1671-1675 | a name of one letter in the last two bytes of any buffer |
| DnsQuestions.RoundTrip | Shard/include/libevent-master/evdns.c:976-1030 | the reader finds that name at the offset, and fits it iff it is short enough for the buffer |
| DnsQuestions.WriteQuestion | Shard/include/libevent-master/evdns.c:1906-1945 | a name with type and class: it can be read where it starts, and where it ends; enough room for it to succeed |
| DnsQuestions.WriteQuestions | Shard/include/libevent-master/evdns.c:1906-1945 | any sequence of questions written with one table follow one another and can all be read at the end; written whenever names and labels have the right size and there is room without compression |
| DnsQuestions.ReadQuestions | Shard/include/libevent-master/evdns.c:1273-1287 | questions with whole names that were written so are read one after the other as they were written, but for final dots and 16-bit cuts |
| TagFormat.EncodeIntInternal | Shard/include/libevent-master/event_tagging.c:121-154 | the nibble loop writes the encoding of the number and nothing else |
| TagFormat.DecodeDigits | Shard/include/libevent-master/event_tagging.c:319-350 | the nibble loop of the decoder computes the value of the digits |
| TagFormat.IntRoundTrip | Shard/include/libevent-master/event_tagging.c:121-387 | decoding the encoding gives the number back and its length, whatever follows |
| TagLaws.IntByteIs | Shard/include/libevent-master/event_tagging.c:121-154 | each byte of an encoded integer: which hexadecimal digits of the number it holds, and how many there are |
| TagFormat.EncodeTag | Shard/include/libevent-master/event_tagging.c:177-198 | the tag loop writes the base-128 form |
| TagFormat.DecodeTagLoop | Shard/include/libevent-master/event_tagging.c:200-246 | the decoding loop accepts exactly the tags of at most five bytes, and exactly when it reads a sixth byte |
| TagFormat.TagRoundTrip | Shard/include/libevent-master/event_tagging.c:177-246 | decoding the encoding gives the tag back, whatever follows |
| TagLaws.TagByteIs | Shard/include/libevent-master/event_tagging.c:177-198 | each byte of a tag: which seven bits it holds, and that all but the last say that another follows |
| TagStream.StreamRoundTrip | Shard/include/libevent-master/event_tagging.c:260-609 | any list of tagged payloads, integers and times reads back in order and leaves what follows |
| TagStream.PeekIsConsume | Shard/include/libevent-master/event_tagging.c:405-466 | evtag_peek_length is what evtag_consume removes iff the payload is below 2^31 bytes, or it is all there is and the sum fits 32 bits |
| TagLaws.IntExactly | Shard/include/libevent-master/event_tagging.c:488-538 | of a whole item at the front of any bytes: read iff its tag is the one needed and its payload is an integer of the width, and what is left in each case |
| TagLaws.IntOtherTag | Shard/include/libevent-master/event_tagging.c:488-538 | whatever the bytes: success means that the tag at the front is the one needed; with another tag exactly the tag is gone |
| TagLaws.FixedExactly | Shard/include/libevent-master/event_tagging.c:542-559 | a payload of a known size is read iff a whole item with that tag and length is there, and then the item is gone |
| TagLaws.StringExactly | Shard/include/libevent-master/event_tagging.c:561-581 | the same for any length below 2^31 |
| TagLaws.PayloadOtherTag | Shard/include/libevent-master/event_tagging.c:542-581 | with another tag neither succeeds, and exactly the header is gone |
| TagLaws.TimeExactly | Shard/include/libevent-master/event_tagging.c:583-609 | of any item: a time is read iff the tag is the one needed and the payload holds two integers, and what is left, but for payloads of 2^31 bytes and more |
| TagLaws.PayloadExactly | Shard/include/libevent-master/event_tagging.c:470-484 | of any item: what is moved, and when it is not |
| TagLaws.ConsumeExactly | Shard/include/libevent-master/event_tagging.c:457-466 | how much of any item is consumed |
| TagLaws.HeaderExactly | Shard/include/libevent-master/event_tagging.c:441-455 | the header is read iff the whole item is there and its length is not -1 as an int |
| TagLaws.NoHeader | Shard/include/libevent-master/event_tagging.c:441-609 | where there is no item nothing is read by any of them |
| Tagging.Marshal | Shard/include/libevent-master/event_tagging.c:260-267 | appends exactly the tagged form |
| Tagging.MarshalInt | Shard/include/libevent-master/event_tagging.c:280-301 | the same for 32- and 64-bit integers |
| Tagging.MarshalTimeval | Shard/include/libevent-master/event_tagging.c:310-317 | the same for times, with fields cut to 32 bits |
| Tagging.MarshalBuffer | Shard/include/libevent-master/event_tagging.c:269-277 | the same with the payload moved from another buffer, which is empty then |
| Tagging.DecodeTagInternal | Shard/include/libevent-master/event_tagging.c:200-246 | the tag at the front of a buffer whatever its chunks, drained or not; it reads behind the memory of a chunk iff it reads a sixth byte and the first five bytes end where the memory of the first chunk ends |
| Tagging.DecodeIntInternal | Shard/include/libevent-master/event_tagging.c:319-377 | the integer at an offset, left in place |
| Tagging.PeekLength | Shard/include/libevent-master/event_tagging.c:405-421 | the length with the header; nothing is removed |
| Tagging.PayloadLength | Shard/include/libevent-master/event_tagging.c:423-437 | the length alone; nothing is removed |
| Tagging.UnmarshalHeader | Shard/include/libevent-master/event_tagging.c:441-455 | tag and length, and what is left in every failing case |
| Tagging.Consume | Shard/include/libevent-master/event_tagging.c:457-466 | removes the item, with the int conversion of its length |
| Tagging.Unmarshal | Shard/include/libevent-master/event_tagging.c:470-484 | moves the payload; what is left where in every failing case |
| Tagging.UnmarshalInt | Shard/include/libevent-master/event_tagging.c:488-538 | the integer, if its tag is the one needed (`TagLaws.IntExactly`), and what is left |
| Tagging.UnmarshalFixed | Shard/include/libevent-master/event_tagging.c:542-559 | the payload, if tag and size are those needed (`TagLaws.FixedExactly`), and what is left |
| Tagging.UnmarshalString | Shard/include/libevent-master/event_tagging.c:561-581 | the payload, if its tag is the one needed (`TagLaws.StringExactly`), and what is left |
| Tagging.UnmarshalTimeval | Shard/include/libevent-master/event_tagging.c:583-609 | the time, if its tag is the one needed (`TagLaws.TimeExactly`), and what is left |
| TokenBucket.SafeRefillIsRefilled | Shard/include/libevent-master/bufferevent_ratelim.c:73-111 | the refill that avoids overflow is min(max, limit + n*rate) |
| TokenBucket.FullExactly | Shard/include/libevent-master/bufferevent_ratelim.c:73-111 | a bucket is full iff at least what it lacked has come in; otherwise it gained exactly ticks times rate |
| TokenBucket.Bucket.Init | Shard/include/libevent-master/bufferevent_ratelim.c:49-71 | a new bucket holds one rate; a reconfigured one only loses what exceeds the new maximum |
| TokenBucket.Bucket.Update | Shard/include/libevent-master/bufferevent_ratelim.c:73-111 | the refill for the ticks passed, or nothing if time stands still or seems to go back |
| TokenBucket.UpdateInSteps | Shard/include/libevent-master/bufferevent_ratelim.c:73-111 | refilling at a tick in between makes no difference iff all ticks together still count as forward |
| TokenBucket.BandwidthIsBounded | Shard/include/libevent-master/bufferevent_ratelim.c:197-346 | over any run within the grants: bytes + what is left <= initial fill + ticks * rate, and the limit goes into debt no deeper than it was |
| Bandwidth.Run | Shard/include/libevent-master/bufferevent_ratelim.c:197-439 | any run of reading, writing and refilling through the bufferevent: each side lets through at most what its bucket held and rate times the duration, 32-bit tick counts notwithstanding |
| Bandwidth.Transfer | Shard/include/libevent-master/bufferevent_ratelim.c:197-439 | one step of it: what the ticks put in and what passes |
| TokenBucket.DebtIsPaid | Shard/include/libevent-master/bufferevent_ratelim.c:73-111 | a bucket in debt is above zero again iff the ticks have paid for it |
| BufferEvent.Bufferevent.SuspendRead | Shard/include/libevent-master/bufferevent.c:66-75 | the read side stays armed iff it is enabled and no reason suspends it |
| BufferEvent.Bufferevent.UnsuspendRead | Shard/include/libevent-master/bufferevent.c:77-86 | the read side is armed again iff it is enabled and no reason is left |
| BufferEvent.Bufferevent.SuspendWrite | Shard/include/libevent-master/bufferevent.c:88-97 | the same for the write side, outside a connection attempt |
| BufferEvent.Bufferevent.UnsuspendWrite | Shard/include/libevent-master/bufferevent.c:99-108 | and armed again iff it is enabled and no reason is left |
| BufferEvent.Bufferevent.BuffereventEnable | Shard/include/libevent-master/bufferevent.c:481-503 | arms exactly the sides that nothing suspends |
| BufferEvent.Bufferevent.BuffereventDisable | Shard/include/libevent-master/bufferevent.c:572-587 | disarms what is disabled |
| BufferEvent.Bufferevent.SocketConnect | Shard/include/libevent-master/bufferevent_sock.c:427-447 | the three answers to connecting keep the invariant; what each arms |
| BufferEvent.Bufferevent.FinishConnecting | Shard/include/libevent-master/bufferevent_sock.c:246-285 | at the end of an attempt the write side is armed iff it should be; after a failure nothing is armed, and exactly when that is right |
| BufferEvent.Bufferevent.DisableHard | Shard/include/libevent-master/bufferevent.c:555-570 | the write side is left armed wrongly iff EV_WRITE is not among the events and only a connection attempt kept it armed |
| BufferEvent.Bufferevent.DisableHardLeavesArmed | Shard/include/libevent-master/bufferevent.c:555-570 | calls of the interface and then one for EV_READ alone, after which it is |
| BufferEvent.Bufferevent.GetRlimMax | Shard/include/libevent-master/bufferevent_ratelim.c:197-258 | the bucket after the refill for the ticks passed; the grant is what it then holds, never negative |
| BufferEvent.Bufferevent.DecrementReadBuckets | Shard/include/libevent-master/bufferevent_ratelim.c:272-308 | an empty bucket suspends reading and has the refill pending; no wake-up is lost |
| BufferEvent.Bufferevent.DecrementWriteBuckets | Shard/include/libevent-master/bufferevent_ratelim.c:310-346 | the same for writing |
| BufferEvent.Bufferevent.RefillCallback | Shard/include/libevent-master/bufferevent_ratelim.c:393-439 | each side is suspended for bandwidth iff its bucket is still empty, and the refill is pending iff one is |
| BufferEvent.Bufferevent.SetRateLimit | Shard/include/libevent-master/bufferevent_ratelim.c:559-635 | the same across setting, changing and removing a configuration; a new one only cuts the bucket to the new maximum |
| DnsRequestLists.Insert | Shard/include/libevent-master/evdns.c:2754-2768 | appends to the circular list |
| DnsRequestLists.Remove | Shard/include/libevent-master/evdns.c:2716-2751 | takes exactly this request out of the circular list, whichever it is |
| DnsRequests.EvdnsBase.constructor | Shard/include/libevent-master/evdns.c:3959-3993 | an empty table meets the invariant |
| DnsRequests.EvdnsBase.FindFromTransId | Shard/include/libevent-master/evdns.c:472-487 | finds a request iff some request in flight has the id, and the only one if ids differ |
| DnsRequests.EvdnsBase.Submit | Shard/include/libevent-master/evdns.c:2857-2875 | in the bucket of its id or at the end of the waiting list; all counters stay list sizes; ids stay different |
| DnsRequests.EvdnsBase.NameserverPick | Shard/include/libevent-master/evdns.c:1349-1382 | the first server that is up, in turn; the list only rotates; the EVUTIL_ASSERT holds |
| DnsRequests.UpInTurnAre | Shard/include/libevent-master/evdns.c:1349-1382 | those that take turns are exactly the servers that are up |
| DnsRequests.TurnGoesOn | Shard/include/libevent-master/evdns.c:1349-1382 | picking gives the first of them and leaves the turn with the next one, round and round |
| DnsRequests.EvdnsBase.TransactionIdPick | Shard/include/libevent-master/evdns.c:1332-1344 | the first number drawn that is not 0xffff and not in flight |
| DnsRequests.EvdnsBase.PumpWaitingQueue | Shard/include/libevent-master/evdns.c:746-774 | a prefix of the waiting list goes in flight, in order, as far as there is room and a server; with any server up each goes to one that is up, and they go round among those in turn; ids stay different |
| DnsRequests.EvdnsBase.RequestFinished | Shard/include/libevent-master/evdns.c:652-710 | exactly this request is gone, requests in flight stay as they are, and of the waiting queue without it a prefix goes in flight, in order, to the servers that are up in turn |
| DnsRequests.EvdnsBase.SwapNs | Shard/include/libevent-master/evdns.c:548-557 | the request changes servers and both counters follow |
| DnsRequests.EvdnsBase.RequestReissue | Shard/include/libevent-master/evdns.c:718-739 | the server that is next in turn, one that is up if any is, and the request counted and marked for sending; or that is the same server, which is reported, and nothing marked |
| DnsRequests.EvdnsBase.NameserverFailed | Shard/include/libevent-master/evdns.c:561-619 | if another server is up then no unsent request stays with the failed one, and nothing else moves |
| DnsRequests.EvdnsBase.AddNameserver | Shard/include/libevent-master/evdns.c:2560-2586 | enters behind the first server, with the counters right |
| DnsRequestLists.RehashStep | Shard/include/libevent-master/evdns.c:3440-3447 | in the middle of rehashing every request in flight is in its old or its new bucket, not in both |
| DnsRequestLists.RehashEnd | Shard/include/libevent-master/evdns.c:3440-3450 | once the old buckets are empty the new ones are a right table with all requests |
| DnsRequests.EvdnsBase.SetMaxRequestsInflight | Shard/include/libevent-master/evdns.c:3425-3454 | the rehashed table is right again for the new number of buckets, with the same requests |
| DnsSearch.SearchState.PostfixAdd | Shard/include/libevent-master/evdns.c:3132-3151 | a domain, without leading dots, comes first in the list |
| DnsSearch.StrippedIs | Shard/include/libevent-master/evdns.c:3132-3151 | only dots in front are lost, and all of them |
| DnsSearch.SearchState.Reverse | Shard/include/libevent-master/evdns.c:3155-3168 | reversed in place |
| DnsSearch.Configure | Shard/include/libevent-master/evdns.c:3132-3168 | pushing to the front and reversing gives the domains in the order configured |
| DnsSearch.StringNumDots | Shard/include/libevent-master/evdns.c:2770-2778 | counts the dots: how often that byte occurs |
| DnsSearch.MakeNew | Shard/include/libevent-master/evdns.c:3209-3237 | the name in the n-th domain |
| DnsSearch.InDomainIs | Shard/include/libevent-master/evdns.c:3209-3237 | none iff the name is empty; the name in front, the domain behind, one dot between them, which is the name's own if it ends in one |
| DnsSearch.LabelsInDomain | Shard/include/libevent-master/evdns.c:3209-3237 | in a query such a name has the labels of the name and then those of the domain, unless the name already ends at an empty label |
| DnsSearch.SearchRequestNew | Shard/include/libevent-master/evdns.c:3239-3282 | the first name of the plan is asked for |
| DnsSearch.SearchTryNext | Shard/include/libevent-master/evdns.c:3289-3330 | then the next one, as long as there is one |
| DnsSearch.SearchAll | Shard/include/libevent-master/evdns.c:3239-3330 | if every name fails, exactly the plan is tried: raw, d0..dn-1 with enough dots, else d0..dn-1, raw; each once |
| Arc4.Arc4Stream.constructor | Shard/include/libevent-master/arc4random.c:99-108 | the state starts as a permutation |
| Arc4.Arc4Stream.GetByte | Shard/include/libevent-master/arc4random.c:415-427 | one step of the stream; the state stays a permutation of 0..255 |
| Arc4.StepIsReversible | Shard/include/libevent-master/arc4random.c:415-427 | a step can be undone, so no two states run together |
| Arc4.OutputIs | Shard/include/libevent-master/arc4random.c:415-427 | which byte comes out, told from the table before the exchange |
| Arc4.Arc4Stream.AddRandom | Shard/include/libevent-master/arc4random.c:110-125 | mixes the key into the state, which stays a permutation |
| Arc4.KeySchedule | Shard/include/libevent-master/arc4random.c:110-125 | round n of mixing: which two bytes of the table are exchanged, given the key byte, and what the 256 rounds leave |
| Arc4.KeyMatters | Shard/include/libevent-master/arc4random.c:110-125 | two keys lead to different states after the round of the first byte in which they differ |
| Arc4.MixingIsReversible | Shard/include/libevent-master/arc4random.c:110-125 | mixing the same data into different states keeps them different |
| Arc4.Arc4Stream.AddAllRandom | Shard/include/libevent-master/arc4random.c:455-470 | every block of 256 bytes is mixed in, in turn |
| Arc4.BlocksInTurn | Shard/include/libevent-master/arc4random.c:455-470 | data in whole blocks may as well be mixed in separately |
| Arc4.Arc4Stream.GetWord | Shard/include/libevent-master/arc4random.c:429-440 | four bytes of the stream, the first one highest |
| Arc4.MinIsRemainder | Shard/include/libevent-master/arc4random.c:512-530 | `min` is 2^32 mod bound in both branches, despite 32-bit wrap-around |
| Arc4.UniformIsUniform | Shard/include/libevent-master/arc4random.c:512-545 | every residue has the same number of accepted words |
| Arc4.Uniform | Shard/include/libevent-master/arc4random.c:512-545 | the residue of the first accepted word |

## Left out

Contracts that say less than the original does, or assume more:

- EvBufferMove.RemoveBuffer: the two lengths are assumed to fit the address space together, since the bytes are in memory.
- EvBufferDrain.CopyoutFrom: a position given by the caller must be a valid one, as the original assumes.
- EvBufferSearch.SearchRange: length and pattern together are assumed to fit a `size_t`; positions given by the caller must be valid.
- EvBufferEol.Readln: the length plus two is assumed to fit a `size_t`.
- EvBufferFill.WriteReserved: stands for what a caller does with reserved memory before committing it.
- EventBaseIo.EventBase.Reinit: the changelist indices of all fds are forgotten before the first fd is asked for again; the original forgets them fd by fd in the same loop. Signals are left out.
- EventBaseIo.EventBase.IoAdd: which events a caller may add is assumed: some kind asked for, and not added twice.
- Batching.BatchingShowsExactly: speaks of one fd that nobody else changes and the kernel does not refuse while it is wanted; refusals and disturbances are in `EventBaseIo.EventBase.ApplyQueuedChanges`. The same holds for the other results about runs.
- BatchingRuns.Run: of calls for one fd; that calls for other fds leave it alone is a clause of each method of `EventBaseIo.EventBase`.
- EventQueues.EventBase.EventAdd: the result of the event map or of the signal map is a parameter; times are numbers of microseconds, with the index of a common timeout beside them instead of in magic bits.
- EventQueues.EventBase.TakeNext: one round of the loop over an active queue, without the callback that follows.
- EventQueues.EventBase.InitCommonTimeout: assumes that no event carries the index of a common timeout list that does not exist yet. The original keeps such an event in the heap, and would take it for a member of the list once that is made.
- DnsLabels.DnsNameToLabels: what is written beyond offset 16383 is not claimed to be readable, since pointers have 14 bits.
- DnsQuestions.WriteQuestions: only the questions; the header, and resource records whose length is filled in afterwards, are not modelled.
- DnsQuestions.ReadQuestions: only the loop over the questions, with memory for each of them.
- Tagging.Marshal: the effect is stated for a buffer that takes all the bytes; the original ignores failures of `evbuffer_add`, and then only the invariant is promised. The same holds for the other marshalling methods.
- Tagging.Unmarshal: what is read is stated for a source whose front is not frozen. The same holds for the other unmarshalling methods.
- Bandwidth.Run: the configuration stays, decrements are not negative, and there is no group. A socket may be read or written while its side is suspended, so the runs include those that happen.
- BufferEvent.Bufferevent.GetRlimMax: without a group.
- BufferEvent.Bufferevent.SocketConnect: which of three answers the system gives is a parameter, and adding an event does not fail.
- BufferEvent.Bufferevent.FinishConnecting: without the event callback that runs before the write side is looked at; `writeArmed` says that output would be waited for, whether there is any or not.
- DnsRequests.EvdnsBase.TransactionIdPick: the random numbers are a given list; when it is used up the model stops where the original would draw on.
- DnsRequests.EvdnsBase.RequestFinished: handles, events and memory of the request are not modelled.
- DnsRequests.EvdnsBase.SetMaxRequestsInflight: old and new buckets are one list until the old ones are dropped; the original has two arrays.
- Arc4.Uniform: the random words are a given list.

Not modelled:

- Allocation failure other than by size, and the release of memory: chunks that leave a list are simply no longer in it.
- Pinned, reference, multicast, file-segment and sendfile chunks; evbuffer callbacks beyond the counters they are told.
- Threads, locks, waiting for a running callback, waking up the loop; every function that holds a lock is one step.
- Signals, `ev_ncalls`, `event_once`, finalizers beyond the flag, `event_count_max` and `event_count_active_max`, watchers, USE_REINSERT_TIMEOUT.
- Sockets, clocks, `epoll_wait`, timerfd, the system's random numbers and `arc4_stir`; `now`, random words and what the kernel refuses are parameters.
- Rate-limit groups, negative decrements, watermarks, bufferevent filters, IOCP, OpenSSL, pairs.
- evdns: sending and receiving, retransmission, probes, suspending and resuming, parsing of resolv.conf and hosts, TTLs and reply contents; `evdns_base_clear_nameservers_and_suspend`; that ids stay different while a search retry has picked an id that is not in the table yet.
- Other backends (select, poll, kqueue, devpoll, evport), evrpc, HTTP; `main.cpp`.
