# Verified models of LDMS

This project models, in Dafny, the parts of the Lightweight Distributed Metric
Service where correctness depends on several functions or a whole protocol
working together, and proves what they promise:

- **Metric-set heap** (`OrderedIndex`, `HeapLayout`, `HeapSizes`, `Heap`): the
  best-fit allocator that splits and coalesces chunks indexed by size and by
  address.
- **Message service** (`MsgParts`, `MsgAssembly`, `MsgLookup`, `MsgIndex`,
  `MsgIndexInv`, `MsgIndexRuns`, `MsgQuota`): messages cut into parts and
  rebuilt, the index that ties clients to channels while deliveries run, client
  and buffer lifetimes, and the send quota.
- **Hostlist expressions** (`Digits`, `HostSyntax`, `HostDenote`, `HostExpand`,
  `HostTokens`, `HostSort`, `HostEven`, `HostClash`, `HostNeat`, `HostCollect`,
  `HostRounds`, `HostRoundTrip`): the expander, the collector, and the round
  trip through both.
- **Request protocol** (`Wire`, `RequestCodec`): attributes, records, sending
  and receiving.
- **Kernel metric sets** (`KernelLayout`): sizes added up by a schema, offsets
  handed out by a set, and storing values.
- **Register rollover** (`Rollover`, `Registers`): the five parallel arrays of
  tracked registers and the counts reported from them.
- **Balancing** (`Sorting`, `Balance`): numeric order of names, producers dealt
  out over aggregators, looking a name up.

Code that changes state is modelled by classes and methods with loops, proved
against specification functions; protocols with several threads are state
machines whose steps are the critical sections; results about runs hold for
every finite sequence of enabled steps.

Four choices shape the models.

- The relocatable red-black tree is an ordered collection: its find operations
  may return any of several nodes with equal keys.
- The message service is modelled as intended and as written. The sender clears
  the copied length before it advances by it, and the receiver looks a buffer up
  by comparing 32 bytes of two structures that are packed differently; both are
  modelled, with the exact conditions under which messages still arrive.
- Regular expression matching, credential checks and the quota group's grants
  are parameters.
- A missing suffix and a string have no order under Python 3. A parameter says
  whether the sort is strict about it, and then fails exactly for the sets of
  hosts that `Clashes` describes; otherwise the missing suffix comes first, as in
  Python 2.

Some promises turn out to hold only under a condition: the sizes a kernel schema
adds up, for example, can exceed what a set uses by eight bytes. For these the model
keeps the code's behaviour, states the condition exactly, and gives one input that
fails: `CoversIffNoWrap` (`LargestRequestWraps`), `WithinSizeIffNotLast`
(`FirstChunkOverruns`), `WrittenHaltsIff` and `WrittenCarriesIff`
(`WrittenRepeatsBytes`), `WrittenMessageArrivesIff` (`SecondPartIsLost`),
`UnmatchedIfBroken` (`DigitBehindNewline`), `ClashIff` (`NumberBehindClashes`),
`StripKeepsIff` (`LeadingZeroIsLost`), `ArrivesIff` (`SizeIsRefused`), `NamesIntactIff`
(`LongNameIsOverwritten`), `SlackIs` (`EightBytesLeftOver`), `RoomIff`
(`CharHasNoRoom`), `ArrayRoomIff` (`LongArrayHasNoRoom`), `StoredIff`
(`DoubleOneIsLost`), `OneRollover` (`TwoRolloversMissed`).

`dafny verify dfyconfig.toml` checks the project.

## Model

| member | source | states |
|---|---|---|
| `OrderedIndex.FindLub` | ldms/src/core/ldms_heap.c:260-266 | the node found has the least key not below the one asked for, and nothing is found only if every key is below |
| `OrderedIndex.FindGlb` | ldms/src/core/ldms_heap.c:348-354 | the node found has the greatest key not above the one asked for |
| `HeapSizes.BlockHoldsRequest` | ldms/src/core/ldms_heap.c:227-247 | the grains taken for a request hold the request and its prefix, with less than one grain to spare, or are a single grain |
| `HeapSizes.CoversIffNoWrap` | ldms/src/core/ldms_heap.c:227-235 | the block size covers request and prefix exactly when the size arithmetic does not wrap |
| `HeapSizes.LargestRequestWraps` | ldms/src/core/ldms_heap.c:227-235 | the largest request is given a single grain |
| `HeapSizes.LeastBitsUnique` | ldms/src/core/ldms_heap.c:182-184 | the grain found by doubling is the least power of two that is large enough |
| `HeapSizes.HeapSizeIs` | ldms/src/core/ldms_heap.c:180-180 | the heap has the first multiple of 512 bytes that is at least what was asked for |
| `HeapSizes.GrainIsLeast` | ldms/src/core/ldms_heap.c:182-184 | and the least power of two as grain that is at least 64 and at least what was asked for |
| `HeapLayout.FreeIffNotLive` | ldms/src/core/ldms_heap.c:171-211 | every byte of the region belongs to exactly one chunk, so it is free if and only if no live block covers it |
| `HeapLayout.CutKeepsTiling` | ldms/src/core/ldms_heap.c:273-286 | splitting a chunk leaves the region tiled: disjoint, whole grains, no gap |
| `HeapLayout.JoinKeepsTiling` | ldms/src/core/ldms_heap.c:353-374 | joining neighbours leaves the region tiled |
| `HeapLayout.LiveBlocksDetermineLayout` | ldms/src/core/ldms_heap.c:347-382 | two coalesced heaps with the same live blocks have the same free chunks |
| `HeapLayout.RunIffChunk` | ldms/src/core/ldms_heap.c:259-264 | some contiguous run of enough free grains exists if and only if one free chunk is that large |
| `HeapLayout.BytesAreConserved` | ldms/src/core/ldms_heap.c:107-119 | free bytes plus live bytes are the whole region |
| `Heap.RoomIffLubFound` | ldms/src/core/ldms_heap.c:259-266 | the size index finds a chunk exactly when there is room, and it is a smallest sufficient one |
| `Heap.SmallerThanHeap` | ldms/src/core/ldms_heap.c:121-129 | chunk starts lie below the heap size, so the offset assertion holds for them |
| `Heap.WithinSizeIffNotLast` | ldms/src/core/ldms_heap.c:196-205 | a chunk ends within the heap size exactly if it is not the last one or the grains leave room for the signature in front of the region |
| `Heap.RoomForSignatureIff` | ldms/src/core/ldms_heap.c:171-205 | and the grains leave that room exactly if they do not divide the rounded size |
| `Heap.FirstChunkOverruns` | ldms/src/core/ldms_heap.c:171-205 | in a new heap of 512 bytes the only chunk ends at byte 520 |
| `Heap.StatDescribesHeap` | ldms/src/core/ldms_heap.c:107-119 | walking the address index counts all free bytes and chunks and finds the extremes |
| `Heap.Heap.constructor` | ldms/src/core/ldms_heap.c:171-211 | the size is the one asked for rounded up to a multiple of 512, the grain the least power of two that is large enough, and all whole grains are one free chunk after the signature, in both indexes |
| `Heap.Heap.Unlink` | ldms/src/core/ldms_heap.c:268-270 | a chunk leaves both indexes together |
| `Heap.Heap.Link` | ldms/src/core/ldms_heap.c:380-382 | a chunk enters both indexes together |
| `Heap.Heap.Carve` | ldms/src/core/ldms_heap.c:268-286 | the front of a free chunk is handed out, the rest stays free, and all heap invariants hold again |
| `Heap.Heap.Alloc` | ldms/src/core/ldms_heap.c:237-306 | fails if and only if no run of enough free grains exists; otherwise takes a smallest sufficient chunk and adds exactly one block, which holds the request and its prefix with less than a grain to spare |
| `Heap.Heap.MergeLeft` | ldms/src/core/ldms_heap.c:347-361 | afterwards no free chunk ends where the released one starts |
| `Heap.Heap.MergeRight` | ldms/src/core/ldms_heap.c:362-375 | afterwards no two free chunks touch anywhere |
| `Heap.Heap.Free` | ldms/src/core/ldms_heap.c:308-398 | exactly the released block disappears; the indexes agree and no two free chunks touch |
| `Heap.Heap.GetInfo` | ldms/src/core/ldms_heap.c:139-154 | the statistics describe the heap: free plus live grains are constant, extremes are attained |
| `Heap.Heap.Serve` | ldms/src/core/ldms_heap.c:237-398 | one request changes the live blocks only as it should, and new blocks are new |
| `Heap.Heap.Run` | ldms/src/core/ldms_heap.c:237-398 | after any requests the live blocks are those handed out and not released, disjoint, and no byte is lost |
| `Heap.Heap.AllocThenFree` | ldms/src/core/ldms_heap.c:268-286 | releasing a block just handed out restores every chunk |
| `Heap.Heap.FreeAll` | ldms/src/core/ldms_heap.c:344-382 | releasing all blocks in any order gives back the single initial chunk |
| `MsgParts.PartSend` | ldms/src/core/ldms_msg.c:154-229 | with the intended cursor advance, the parts concatenate to the parameters; all but the last are full; only the first is marked first and only the last as having no more |
| `MsgParts.WrittenHaltsIff` | ldms/src/core/ldms_msg.c:199-206 | with the length cleared before the advance, sending ends exactly if every parameter fits one part |
| `MsgParts.WrittenCarriesIff` | ldms/src/core/ldms_msg.c:199-206 | and carries the right bytes exactly if every parameter fits what is left of the part being filled |
| `MsgParts.WrittenRepeatsBytes` | ldms/src/core/ldms_msg.c:199-206 | two parameters for which it sends some bytes twice |
| `MsgAssembly.IntendedReceiver.constructor` | ldms/src/core/ldms_msg.c:1367-1392 | a receiver starts with no buffer |
| `MsgAssembly.IntendedReceiver.ProcessMsg` | ldms/src/core/ldms_msg.c:1367-1447 | with buffers found by source and number, as intended, a part affects only the buffer of its own message; a message is delivered under the part's own source, or the peer's if it has none; no buffer takes more than was announced |
| `MsgAssembly.IntendedReceiver.ProcessAll` | ldms/src/core/ldms_msg.c:1306-1447 | a trace of parts is handled one by one, as intended |
| `MsgAssembly.CollectStaysWithin` | ldms/src/core/ldms_msg.c:1394-1411 | a buffer never takes more bytes than its message has, and is given up as a message only when it has them all |
| `MsgAssembly.ReceiveStaysWithin` | ldms/src/core/ldms_msg.c:1394-1411 | so over any trace of parts |
| `MsgAssembly.IntendedKeysAreIndependent` | ldms/src/core/ldms_msg.c:1367-1393 | with the intended lookup, what happens to one message does not depend on how others are interleaved with it |
| `MsgAssembly.RepPublish` | ldms/src/core/ldms_msg.c:235-297 | the parts carry header, tag and data, with their length in the header |
| `MsgAssembly.FinishUndoesStream` | ldms/src/core/ldms_msg.c:1423-1433 | splitting a complete buffer gives back the tag and data sent |
| `MsgAssembly.IntendedMessageArrives` | ldms/src/core/ldms_msg.c:1367-1447 | with the intended lookup, the parts of a message deliver it once, at the last part, and leave no buffer |
| `MsgAssembly.IntendedInterleavingArrives` | ldms/src/core/ldms_msg.c:1367-1447 | with the intended lookup, any interleaving that keeps each message's order rebuilds every message exactly once |
| `MsgLookup.LookupIff` | ldms/src/core/ldms_msg.c:1256-1259 | the 32 bytes of a stored key equal those of a part exactly if the sources agree, the part's number is the stored low half moved up by 32 bits, and its flag word is the stored high half |
| `MsgLookup.WrittenReceiver.constructor` | ldms/src/core/ldms_msg.c:1367-1392 | a receiver starts with no buffer |
| `MsgLookup.WrittenReceiver.Find` | ldms/src/core/ldms_msg.c:1367-1371 | finds a buffer exactly if one has the bytes of the part |
| `MsgLookup.WrittenReceiver.ProcessMsg` | ldms/src/core/ldms_msg.c:1367-1447 | a part is collected into the buffer found, or into a new one if it is a first part; a message is delivered under the source and number of its last part; no buffer takes more than was announced |
| `MsgLookup.WrittenReceiver.ProcessAll` | ldms/src/core/ldms_msg.c:1306-1447 | a trace of parts is handled one by one |
| `MsgLookup.StepStaysWithin` | ldms/src/core/ldms_msg.c:1394-1411 | the same with the lookup as written |
| `MsgLookup.OwnBufferFoundIff` | ldms/src/core/ldms_msg.c:1367-1371 | a part finds the buffer of its own message exactly if number and flag word are zero |
| `MsgLookup.WrittenMessageArrivesIff` | ldms/src/core/ldms_msg.c:1367-1447 | alone, a message is rebuilt exactly if it has one part, or two parts, number zero and a zero flag word; any other ends in a bad message at its second part |
| `MsgLookup.SecondPartIsLost` | ldms/src/core/ldms_msg.c:1374-1377 | a two-part message with number one ends in a bad message and leaves its buffer behind |
| `MsgLookup.NothingIsFound` | ldms/src/core/ldms_msg.c:1367-1447 | in any run with numbers from 1 to 2^32 - 1 no part finds a buffer: each comes to what it would come to alone, and buffers made for more parts stay |
| `MsgLookup.OnlyOnePartArrives` | ldms/src/core/ldms_msg.c:1367-1447 | so in any such run only messages of one part are delivered, and every later part is a bad message |
| `MsgIndexInv.StepKeepsInv` | ldms/src/core/ldms_msg.c:414-533 | every critical section of every thread keeps lists, bindings, counts, queues and deliveries in agreement |
| `MsgIndexInv.BindIsFresh` | ldms/src/core/ldms_msg.c:476-505 | a client and a channel are never tied twice |
| `MsgIndexInv.NotCalledTwice` | ldms/src/core/ldms_msg.c:695-728 | a delivery never comes to a client it has called before |
| `MsgIndexInv.ReaperIsUnreferenced` | ldms/src/core/ldms_msg.c:1011-1020 | the client being freed has no binding, callback or queue place left |
| `MsgIndexRuns.ReachableHasInv` | ldms/src/core/ldms_msg.c:414-533 | the invariant holds in every reachable state |
| `MsgIndexRuns.SubscriptionIsKept` | ldms/src/core/ldms_msg.c:1088-1100 | what a client subscribed to, and whether it is a regular expression, is what the service holds for it in every later state |
| `MsgIndexRuns.OpenIff` | ldms/src/core/ldms_msg.c:1022-1060 | a client is open exactly if its subscription was entered and its close has not begun |
| `MsgIndexRuns.ChannelsAreCreated` | ldms/src/core/ldms_msg.c:414-470 | the channels are those that were created |
| `MsgIndexRuns.BindingsAreExact` | ldms/src/core/ldms_msg.c:414-533 | outside the write lock a client and a channel share a live binding, exactly one, if and only if the client's subscription was entered, its close has not begun, and what it subscribed to matches the tag |
| `MsgIndexRuns.DeliveryIsNaiveScan` | ldms/src/core/ldms_msg.c:693-728 | a delivery calls the same open clients, once each, as a scan of all subscriptions ever made would; everybody called had subscribed to the tag and has received the message |
| `MsgIndexRuns.UnboundIsSwept` | ldms/src/core/ldms_msg.c:730-747 | a delivery that skipped an unbound entry sweeps its channel before it ends, and then exactly the bound entries are left |
| `MsgIndexRuns.VisitCallsOpenClient` | ldms/src/core/ldms_msg.c:695-714 | a callback is only started for a matching client whose close has not unbound it |
| `MsgIndexRuns.RefcountIsExact` | ldms/src/core/ldms_msg.c:476-533 | a client's count is its handle, its regex queue place, its live bindings and its callbacks in flight |
| `MsgIndexRuns.CloseComesOnceAndLast` | ldms/src/core/ldms_msg.c:2434-2452 | nothing reaches a client after its close event; a client without references is queued for it or has had it, never both; exactly the client being freed and the freed ones have had it; a freed client is bound nowhere |
| `MsgIndexRuns.FreeFindsNothingBound` | ldms/src/core/ldms_msg.c:997-1009 | every entry of a client is unbound when the client is freed |
| `MsgIndexRuns.EntryFreedAfterBothLists` | ldms/src/core/ldms_msg.c:733-747 | an entry is freed exactly when it has left both lists |
| `MsgIndexRuns.QueuesAreDisjoint` | ldms/src/core/ldms_msg.c:1011-1020 | a client is never in the regex queue and the close queue at once, though both use one link |
| `MsgIndexRuns.HolderCanGoOn` | ldms/src/core/ldms_msg.c:414-533 | whoever holds the write lock always has a step to take |
| `MsgIndexRuns.DeliveryCanGoOn` | ldms/src/core/ldms_msg.c:693-747 | so has a delivery under way, whoever holds the write lock |
| `MsgIndexRuns.ClientCanGoOn` | ldms/src/core/ldms_msg.c:1022-1060 | and a client, outside the write lock, by what it subscribed to and how far it has come |
| `MsgIndexRuns.CloserCanGoOn` | ldms/src/core/ldms_msg.c:2434-2452 | and the close thread as long as its queue is not empty |
| `MsgQuota.StepKeepsInv` | ldms/src/core/ldms_msg.c:352-371 | every step keeps each endpoint's quota accounted for and buffer counts equal to their holders |
| `MsgQuota.DoneIsFinal` | ldms/src/core/ldms_msg.c:1282-1304 | a step frees at most one buffer, whose last reference it drops, returning what that buffer holds |
| `MsgQuota.LastReferenceReturns` | ldms/src/core/ldms_msg.c:1282-1304 | the last reference sends the amount back at once if the quota group grants it, and leaves it pending if not |
| `MsgQuota.FirstComeFirstServed` | ldms/src/core/ldms_msg.c:359-371 | buffers that wait for an endpoint are forwarded in the order they were queued |
| `MsgQuota.QuotaIsFixed` | ldms/src/core/ldms_msg.c:968-971 | no step changes the quota an endpoint started with |
| `MsgQuota.QuotaIsConserved` | ldms/src/core/ldms_msg.c:1282-1304 | over every run what was acquired is available, in flight, held, pending return or returned, and all comes back when nothing is under way |
| `MsgQuota.BufferReturnsOnce` | ldms/src/core/ldms_msg.c:1443-1446 | a live buffer has not returned its amount; a freed one is nowhere any more |
| `Digits.PadRead` | ldms/python/ldmsd/hostlist.py:257-259 | printing a number that was read, at its own width, keeps its leading zeros |
| `Digits.LastDigitIsOnes` | ldms/python/ldmsd/hostlist.py:154-156 | the last digit counts ones |
| `Digits.NoExtraZeros` | ldms/python/ldmsd/hostlist.py:164-168 | a number that outgrows its width gets no leading zero |
| `HostSyntax.GroupsMeanProduct` | ldms/python/ldmsd/hostlist.py:98-131 | a part stands for something if and only if all its ranges are good, and then for the ordered product of its range lists |
| `HostSyntax.ProductLength` | ldms/python/ldmsd/hostlist.py:124-131 | the number of hosts is the product of the sizes |
| `HostSyntax.CrossAt` | ldms/python/ldmsd/hostlist.py:128-131 | the rest varies fastest |
| `HostSyntax.NumbersAt` | ldms/python/ldmsd/hostlist.py:164-168 | every number from low to high, in order, at the width of the lower end |
| `HostSyntax.PartsAreGroups` | ldms/python/ldmsd/hostlist.py:105-111 | every part with closed, un-nested brackets has that form |
| `HostExpand.ExpandRange` | ldms/python/ldmsd/hostlist.py:142-168 | succeeds exactly on good ranges within the limit, a newline at the end allowed, with every number in order |
| `HostExpand.ExpandRangelist` | ldms/python/ldmsd/hostlist.py:133-140 | the ranges in order, each number behind the prefix |
| `HostExpand.ExpandPart` | ldms/python/ldmsd/hostlist.py:98-131 | succeeds exactly if the text looked at, which a newline behind a bracket can cut short, has a meaning within the limit, although limits are checked bracket by bracket, and gives that meaning |
| `HostExpand.SeenWhole` | ldms/python/ldmsd/hostlist.py:110-114 | without a newline the whole part is looked at |
| `HostExpand.NewlineCuts` | ldms/python/ldmsd/hostlist.py:110-114 | what follows a newline behind the first bracket is not looked at |
| `HostExpand.NotSeenNeverEnds` | ldms/python/ldmsd/hostlist.py:110-114 | if a newline cuts a part off inside a later bracket, the recursion comes back to a text it cannot shorten |
| `HostExpand.FirstOnesContents` | ldms/python/ldmsd/hostlist.py:170-178 | the same elements, each once, and a list without duplicates unchanged |
| `HostExpand.RemoveDuplicates` | ldms/python/ldmsd/hostlist.py:170-178 | keeps the first occurrence of every element, in order |
| `HostExpand.SplitBalanced` | ldms/python/ldmsd/hostlist.py:69-90 | the parts cut at top-level commas have closed, un-nested brackets |
| `HostExpand.SplitJoinsBack` | ldms/python/ldmsd/hostlist.py:69-80 | joined by commas again, the parts are the expression |
| `HostExpand.ExpandHostlist` | ldms/python/ldmsd/hostlist.py:59-96 | succeeds exactly on closed, un-nested expressions whose parts all expand, and gives the hosts of what is looked at, one part after the other |
| `HostTokens.ShortestPrefix` | ldms/python/ldmsd/hostlist.py:237-239 | the split is the one the lazy regular expression finds |
| `HostTokens.UnmatchedIff` | ldms/python/ldmsd/hostlist.py:237-239 | there is no match exactly if no prefix of one line can be split off |
| `HostTokens.UnmatchedIfBroken` | ldms/python/ldmsd/hostlist.py:237-239 | which is exactly if a digit follows a newline |
| `HostTokens.DigitBehindNewline` | ldms/python/ldmsd/hostlist.py:237-239 | a name with a newline before its number does not match |
| `HostTokens.PrepareOk` | ldms/python/ldmsd/hostlist.py:233-259 | prefix, number at its width and suffix give back the host |
| `HostTokens.ScanStaysInGroup` | ldms/python/ldmsd/hostlist.py:301-307 | a range scan only ever meets hosts of the prefix and suffix it scans |
| `HostSort.ItemsSorted` | ldms/python/ldmsd/hostlist.py:261-265 | the sort list is a sorted permutation |
| `HostSort.ItemAntisymmetric` | ldms/python/ldmsd/hostlist.py:261-265 | its order leaves no choice |
| `HostSort.SortedGroups` | ldms/python/ldmsd/hostlist.py:273-279 | items with one prefix and suffix stand together, so they form one group |
| `HostSort.FirstDifferenceDecides` | ldms/python/ldmsd/hostlist.py:261-265 | strings compare by their first differing character |
| `HostSort.BeginningComesFirst` | ldms/python/ldmsd/hostlist.py:261-265 | and a string comes before what it is the beginning of |
| `HostDenote.FamilyListedWhole` | ldms/python/ldmsd/hostlist.py:278-333 | parts that share no host, taken once each in any order, list every host once |
| `HostDenote.ListedFamily` | ldms/python/ldmsd/hostlist.py:278-333 | and conversely |
| `HostCollect.RangeReadsBack` | ldms/python/ldmsd/hostlist.py:335-341 | a formatted range reads back as the numbers it was made from, also when they grow in width |
| `HostCollect.NewlineAtEnd` | ldms/python/ldmsd/hostlist.py:146-151 | a newline at the end of a range is let through |
| `HostCollect.ScanRange` | ldms/python/ldmsd/hostlist.py:299-308 | removes exactly the longest run of hosts from the starting number on |
| `HostCollect.TakeRange` | ldms/python/ldmsd/hostlist.py:299-310 | a range starts at the given number, holds every host of the longest run from it on, and takes exactly those out |
| `HostCollect.CollectRanges` | ldms/python/ldmsd/hostlist.py:289-310 | the ranges of a group stand for exactly the hosts removed, none of the group's hosts remains, no range goes on where an earlier one stops, and they ascend |
| `HostCollect.CollectGroup` | ldms/python/ldmsd/hostlist.py:285-326 | a group becomes one entry that stands for exactly its hosts: a single number is not bracketed, more are, in a neat bracket |
| `HostCollect.FormatNeat` | ldms/python/ldmsd/hostlist.py:322-326 | the ranges found, formatted, can be read as ascending ranges none of which goes on where another stops |
| `HostNeat.NeatBracket` | ldms/python/ldmsd/hostlist.py:316-326 | and a bracket put in front leaves the brackets behind it neat |
| `HostClash.ClashNeedsNumberBehind` | ldms/python/ldmsd/hostlist.py:246-265 | a clash needs a host, and the same host followed by a number and at least as many numbers as it has itself |
| `HostClash.NumberBehindClashes` | ldms/python/ldmsd/hostlist.py:246-265 | a host without a digit and one that goes on with a number do clash, whatever other hosts there are |
| `HostClash.PrefixFreeNeverClashes` | ldms/python/ldmsd/hostlist.py:246-265 | if no host starts with another there is no clash |
| `HostClash.SoleStaysAlone` | ldms/python/ldmsd/hostlist.py:316-321 | a host alone in its group stays as it is for another round |
| `HostClash.AloneWasSole` | ldms/python/ldmsd/hostlist.py:316-326 | and only such a host does |
| `HostClash.ClashIff` | ldms/python/ldmsd/hostlist.py:246-265 | a round has to compare a missing suffix with a string exactly if the set of hosts says so |
| `HostClash.NoLaterClash` | ldms/python/ldmsd/hostlist.py:278-333 | once no number is left no later round could |
| `HostRounds.Analyse` | ldms/python/ldmsd/hostlist.py:231-259 | the sort list and the set of hosts seen describe the same hosts; fails exactly if some left part does not match |
| `HostRounds.SortList` | ldms/python/ldmsd/hostlist.py:261-265 | a strict sort fails exactly if two items clash, and otherwise sorts |
| `HostRounds.GroupEnd` | ldms/python/ldmsd/hostlist.py:273-279 | a group holds all items with its prefix and suffix |
| `HostRounds.RoundEnd` | ldms/python/ldmsd/hostlist.py:328-333 | after the last group no host remains and the results list every host once |
| `HostRounds.CollectGroups` | ldms/python/ldmsd/hostlist.py:267-333 | the groups become entries that stand for the same hosts, each group shown by one entry; exactly the hosts alone in their groups stay without a bracket; if there is no number left the entries ascend |
| `HostRounds.CollectOnce` | ldms/python/ldmsd/hostlist.py:219-333 | a round fails exactly on a left part without a match or, if strict, on a clash; otherwise it keeps the hosts stood for, without overlap, joins what differs in one number, tears nothing apart, and shortens the text to be analysed whenever it asks for another |
| `HostRoundTrip.CollectRounds` | ldms/python/ldmsd/hostlist.py:213-217 | the rounds end, and fail exactly if a host does not match or, if strict, the hosts clash; the parts ascend, their brackets are neat, and hosts that come into one group share a part |
| `HostRoundTrip.CollectHostlist` | ldms/python/ldmsd/hostlist.py:182-217 | fails exactly on a forbidden character, a host that does not match or, if strict, hosts that clash; otherwise shows the distinct stripped hosts, each once, in ascending parts with neat brackets, where hosts that come into one group share a part |
| `HostRoundTrip.LastNumbersShareAPart` | ldms/python/ldmsd/hostlist.py:182-217 | in particular hosts that differ in their last number only share a part |
| `HostRoundTrip.StripIs` | ldms/python/ldmsd/hostlist.py:200-202 | white space is removed from both ends, all of it and nothing else |
| `HostRoundTrip.CollectThenExpand` | ldms/python/ldmsd/hostlist.py:59-341 | expanding what was collected gives back exactly the distinct stripped hosts, each once, and succeeds exactly if every collected part is within the limit |
| `Wire.NetworkOrder` | ldms/python/ldmsd/ldmsd_communicator.py:549-555 | fields are sent most significant byte first |
| `RequestCodec.StripKeepsIff` | ldms/python/ldmsd/ldmsd_communicator.py:562-564 | a value comes through exactly if it has no zero at either end |
| `RequestCodec.LeadingZeroIsLost` | ldms/python/ldmsd/ldmsd_communicator.py:562-564 | a value with a leading zero loses it |
| `RequestCodec.UnpackPacked` | ldms/python/ldmsd/ldmsd_communicator.py:486-567 | one packed attribute is read back whatever follows it, except that SIZE has no name and is refused |
| `RequestCodec.PackedAs` | ldms/python/ldmsd/ldmsd_communicator.py:513-533 | an attribute is a marker, its id, its length, and its value with a terminating zero |
| `RequestCodec.RecordLengthMeansTooBig` | ldms/python/ldmsd/ldmsd_communicator.py:979-991 | a record length among the attributes says that the request was too big |
| `RequestCodec.ReadPacked` | ldms/python/ldmsd/ldmsd_communicator.py:979-991 | an attribute list delimits itself |
| `RequestCodec.ArrivesIff` | ldms/python/ldmsd/ldmsd_communicator.py:433-484 | a list arrives exactly if no SIZE attribute comes before its end |
| `RequestCodec.SizeIsRefused` | ldms/python/ldmsd/ldmsd_communicator.py:433-484 | a list with a SIZE attribute in second place is refused |
| `RequestCodec.ArrivesUnchanged` | ldms/python/ldmsd/ldmsd_communicator.py:979-991 | values without zeros at their ends arrive as they were sent |
| `RequestCodec.ArrivesInOrder` | ldms/python/ldmsd/ldmsd_communicator.py:979-991 | the attributes before the terminating one arrive, all of them and in order |
| `RequestCodec.NewRecord` | ldms/python/ldmsd/ldmsd_communicator.py:897-910 | a record fits the transport and its header tells its length and place |
| `RequestCodec.Send` | ldms/python/ldmsd/ldmsd_communicator.py:926-953 | ends without exceeding the record limit; every record but the last is full; only the first record opens and only the last closes; together they carry everything |
| `RequestCodec.GatherRecords` | ldms/python/ldmsd/ldmsd_communicator.py:959-977 | data up to the closing record, or the first fault found |
| `RequestCodec.GatherAt` | ldms/python/ldmsd/ldmsd_communicator.py:959-977 | what is gathered is the data of the records up to the first that closes the message, with its error code |
| `RequestCodec.GatheredCloses` | ldms/python/ldmsd/ldmsd_communicator.py:959-977 | and nothing is gathered unless a record closes it |
| `RequestCodec.UnpackFields` | ldms/python/ldmsd/ldmsd_communicator.py:979-991 | attributes up to the terminating one, or the first fault found |
| `RequestCodec.Receive` | ldms/python/ldmsd/ldmsd_communicator.py:955-998 | succeeds exactly if the attributes up to the closing record can be read; tells the closing record's error code and the attributes, or none if there are none, and as message the text of a lone STRING or JSON attribute and nothing else |
| `RequestCodec.SendThenReceive` | ldms/python/ldmsd/ldmsd_communicator.py:926-998 | whatever the record limit, the attributes sent are the attributes told, unchanged if no value has a zero at an end, and a lone STRING or JSON attribute is the message |
| `KernelLayout.Schema.constructor` | kernel/kldms/kldms.c:407-422 | an empty schema counts its headers |
| `KernelLayout.Schema.Add` | kernel/kldms/kldms.c:451-486 | refuses exactly a name already there; otherwise the metric added has the name, type, kind and count given, and the totals are those of all metrics |
| `KernelLayout.Schema.AddScalar` | kernel/kldms/kldms.c:488-503 | adds one value of the type given; also refuses exactly the types that are no scalars |
| `KernelLayout.Schema.AddArray` | kernel/kldms/kldms.c:506-529 | adds as many elements as given; also refuses exactly the types that are no arrays |
| `KernelLayout.NamesIntactIff` | ldms/src/core/ldms_core.h:360-378 | neither name runs into what follows it exactly if both have fewer than 255 characters |
| `KernelLayout.LongNameIsOverwritten` | ldms/src/core/ldms_core.h:360-378 | an instance name of 255 characters is overwritten from its first character on |
| `KernelLayout.SlackIs` | kernel/kldms/kldms.c:302-306 | what is left over in the meta-data section is what the eight-bit length fields do not count of the names, and eight bytes more unless the names end one to four bytes past a multiple of eight |
| `KernelLayout.EightBytesLeftOver` | kernel/kldms/kldms.c:302-306 | a set for which eight bytes are left over |
| `KernelLayout.PlaceDescriptors` | kernel/kldms/kldms.c:359-385 | the first pass puts each descriptor behind the previous one and hands out data offsets |
| `KernelLayout.PlaceMetaValues` | kernel/kldms/kldms.c:386-399 | the second pass hands out meta-data offsets behind the descriptors and disturbs nothing |
| `KernelLayout.LayoutIsGood` | kernel/kldms/kldms.c:359-399 | descriptors and values are aligned, disjoint and inside their sections |
| `KernelLayout.PageOrder` | kernel/kldms/kldms.c:307-316 | the least order whose pages hold the set |
| `KernelLayout.KernelSet.constructor` | kernel/kldms/kldms.c:277-405 | what the schema added up is what the set uses, the data section is filled exactly, every descriptor says what its metric is, and a data slot holds all its elements unless their size overflows 32 bits |
| `KernelLayout.RoomIff` | kernel/kldms/kldms.c:235-258 | a slot has room for its value exactly if the size table knows the type |
| `KernelLayout.CharHasNoRoom` | kernel/kldms/kldms.c:235-258 | a character is given no bytes |
| `KernelLayout.ArrayRoomIff` | kernel/kldms/kldms.c:260-266 | an array's slot has room exactly if its size does not overflow 32 bits |
| `KernelLayout.LongArrayHasNoRoom` | kernel/kldms/kldms.c:260-266 | an array of 2^29 64-bit numbers is given no bytes |
| `KernelLayout.StoredIff` | kernel/kldms/kldms.c:631-633 | a value reads back as it was set exactly if it is no double or fits 32 bits |
| `KernelLayout.WidthSuffices` | kernel/kldms/kldms.c:235-258 | the bytes of a type hold exactly its bit patterns |
| `KernelLayout.SlotHoldsAll` | kernel/kldms/kldms.c:260-266 | a data slot holds all elements of its metric unless their size overflows 32 bits |
| `KernelLayout.DoubleOneIsLost` | kernel/kldms/kldms.c:631-633 | the double 1.0 reads back as zero |
| `KernelLayout.OthersKept` | kernel/kldms/kldms.c:603-639 | writing into one slot leaves all others alone |
| `KernelLayout.KernelSet.SetMetric` | kernel/kldms/kldms.c:603-639 | the value can be read back from its slot, no other slot changes, and a type that cannot be set changes nothing |
| `Rollover.OneRollover` | kernel/kldms/gpcdr.c:315-319 | taking a smaller reading for one rollover is right exactly if the count advanced by less than the period |
| `Rollover.TwoRolloversMissed` | kernel/kldms/gpcdr.c:315-319 | two rollovers between samples are taken for none |
| `Rollover.SampleKeeps` | kernel/kldms/gpcdr.c:311-375 | a sample keeps reading plus rollovers in step with the true count |
| `Rollover.ReportedIsTrue` | kernel/kldms/gpcdr.c:75-77 | what is reported is the true count short of a fixed amount, in 64 bits |
| `Rollover.ReportsTrueCount` | kernel/kldms/gpcdr.c:311-375 | after any number of samples that amount is what the first sample could not show |
| `Registers.Registers.constructor` | kernel/kldms/gpcdr.c:56-88 | nothing is tracked at first |
| `Registers.Registers.Resize` | kernel/kldms/gpcdr.c:97-141 | whichever allocation fails, all arrays stay large enough and keep their contents |
| `Registers.Registers.Locate` | kernel/kldms/gpcdr.c:187-200 | refuses exactly if a wanted register is tracked with another increment |
| `Registers.Registers.AddMissing` | kernel/kldms/gpcdr.c:212-223 | new registers go behind the old ones, within bounds |
| `Registers.Registers.TrackRegs` | kernel/kldms/gpcdr.c:179-226 | each index leads to its register with the right increment; registers already there neither move nor change |
| `Registers.Registers.UpdateRollovers` | kernel/kldms/gpcdr.c:311-320 | adds the increment of exactly the registers whose reading became smaller |
| `Registers.Registers.ReadRegisters` | kernel/kldms/gpcdr.c:360-369 | the old readings become the previous ones |
| `Registers.Registers.Sample` | kernel/kldms/gpcdr.c:323-375 | returns early exactly while the last sample lives, by its time and the lifetime; otherwise every register stays in step with its true count |
| `Sorting.SortSorts` | ldms/python/ldmsd/hostlist.py:345-351 | sorting gives a sorted permutation |
| `Balance.KeysComparable` | ldms/python/ldmsd/hostlist.py:354-374 | numeric keys never compare a number with a string |
| `Balance.NumericSortSorts` | ldms/python/ldmsd/hostlist.py:345-374 | numeric order is a total preorder, and sorting by it is a permutation |
| `Balance.SmallerNumberFirst` | ldms/python/ldmsd/hostlist.py:354-374 | of two names that agree up to a number the one with the smaller number comes first, whatever its width |
| `Balance.DistList` | ldms/python/ldmsd/parser_util.py:185-194 | cuts the sorted list where the sizes say |
| `Balance.SliceSize` | ldms/python/ldmsd/parser_util.py:186-193 | sizes differ by at most one, the larger ones first |
| `Balance.SlicesJoin` | ldms/python/ldmsd/parser_util.py:185-194 | the slices one after the other are the sorted list |
| `Balance.EachProducerOnce` | ldms/python/ldmsd/parser_util.py:185-194 | every producer is in exactly one slice |
| `Balance.ExpandNames` | ldms/python/ldmsd/parser_util.py:137-145 | the names of a specification in order; those of one expression are all different |
| `Balance.BisectLeft` | ldms/python/ldmsd/parser_util.py:198-198 | the first position whose name is not below the one sought |
| `Balance.BinSearch` | ldms/python/ldmsd/parser_util.py:197-201 | agrees with plain membership |
| `Balance.IsNamed` | ldms/python/ldmsd/parser_util.py:1120-1120 | a name is found exactly if the specification stands for it |
| `Balance.ProducersFor` | ldms/python/ldmsd/parser_util.py:969-976 | an aggregator gets its own slice, and only members of the group get one |
| `Balance.ShareIsOwnSlice` | ldms/python/ldmsd/parser_util.py:969-976 | the aggregator in place i of the sorted group gets slice i |
| `Balance.EachProducerAssignedOnce` | ldms/python/ldmsd/parser_util.py:969-976 | across a group every producer is assigned to exactly one aggregator |

## Left out

- Heap.Heap.constructor: takes a size above zero and a grain that fits the 24-bit field and the region, as the chunk header needs; a heap of size zero is only a marker.
- Heap.Heap.Alloc: takes requests whose size arithmetic does not wrap; `HeapSizes.CoversIffNoWrap` says what wrapping does.
- Heap.Heap.Free: takes pointers to live blocks, as the code does outside its debug build.
- MsgParts.PartSend: has the cursor advance the code intends; the order it is written in is `WrittenFill` and `WrittenNext`, whose `fuel` only serves to state that sending ends.
- MsgAssembly.IntendedReceiver.ProcessMsg: compares the fields of a key; the comparison as written is `MsgLookup.WrittenReceiver.ProcessMsg`. Both take first parts long enough to hold the length field.
- MsgLookup.WrittenReceiver.ProcessMsg: a little-endian machine that aligns 64-bit numbers to eight bytes and puts the first bit field into the lowest bits; where the code asserts that a message is not bad, the outcome is `BadMessage`.
- MsgIndexRuns.DeliveryIsNaiveScan: one delivery at a time per channel, allocations succeed, and a local client's JSON document parses.
- MsgQuota.QuotaIsConserved: raw sends succeed and message lengths are valid; rate quota, unlimited quota and reconfiguring a quota are not modelled.
- HostRoundTrip.CollectThenExpand: says nothing about the expanded hosts if a wanted host has a newline inside, because expansion then need not look at all that was collected.
- HostExpand.ExpandPart: a recursion that comes back to the same text is an error at once; Python also gives up on a part with about a thousand brackets, which is not modelled.
- HostExpand.ExpandHostlist: the `sort` option is `Balance.NumericallySorted` applied to the result.
- RequestCodec.SendThenReceive: takes records of more than 28 bytes; values are bytes, so the decoding of text outside ASCII and its length in characters are not modelled.
- KernelLayout.KernelSet.constructor: takes sets below four gigabytes, so that 32-bit offsets hold; the size of the data header is a parameter that is a multiple of eight; a page has 4096 bytes and allocation succeeds.
- KernelLayout.KernelSet.SetMetric: takes data metrics, and no character type, which the size table does not know; setting array elements and meta-data values, which the code addresses from the data section too, is not modelled, nor are the stored length and characters of metric names.
- Registers.Registers.Sample: every register is read successfully.
- Balance.ExpandNames: specifications are strings, and writing the configuration text is not modelled.
- The red-black tree itself, its balancing and its relocation.
- Transport, rail, quota groups, authentication and credential checks.
- Statistics, profiling and timestamps of the message service, and its disabled state.
- The disconnect path, which unsubscribes the peer's clients.
- `parse_slurm_tasks_per_node`, and the rest of the configuration parser and the communicator.
- Kernel character device, set publishing and the register address tables.
