# HiTycho verification

A Dafny model of the parts of HiTycho that hold state machines and algorithms, with proofs about them. HiTycho is a
header-only C++ library for HPX.

- **Pipelines** (`src/pipeline.hpp`). `Channel` is the queue with its history, `Ring` is the array object that refines
  it, and `PipelineThreads` interleaves any number of threads over the same updates: an explicit mutex, two condition
  variables with spurious wake-ups and arbitrary choice of the sleeper that `notify_one` wakes, the `closed_` flag that
  is set without the mutex, and the event descriptor. All four classes are one model with a full-ring rule (wait, drop
  the oldest, throw) and a descriptor kind. `PipelineCalls` follows calls from entry to return, `PipelineProgress` shows
  that they get done, and `PipelineWindow` follows runs of the dropping pipeline.
- **Dictionary** (`src/atomic.hpp`). `Rows` is the table as values, `Dictionary` the heap of linked nodes called by one
  thread at a time, `DictionaryThreads` any number of threads inserting and searching, `DictionaryCalls` their inserts
  from call to return, `DictionaryProgress` how soon inserts and searches finish.
- **Codecs** (`src/binary.hpp`). `Base64` and `Hex`, on 8-bit words with the code's own 32-bit shifts and masks;
  `Base64Standard` ties the first to the literal alphabet and to the bits of the input.
- **Guards and wait groups** (`src/sync.hpp`). `Guards` is what moves do to an obligation, `Scopes` the objects,
  `WaitGroupThreads` a wait group with any number of waiters.
- **Text and arithmetic**. `Strings` (split and join), `Scan` and `ScanDigits` (integer scanners and parsers), `Framing`
  (the memory buffer's views and bodies), `Power` (repeated squaring).

Where a natural claim is false of the code, the code is kept and the exact condition is proved:

- `decode_b64` accepts padding in any place and discards set pad bits, which section 3.5 of RFC 4648 lets a decoder
  reject. Encoding what it decoded gives the text back if and only if the text is canonical
  (`Base64.RecoveredIffCanonical`, `Base64.PaddingAnywhere`).
- An `add` that wraps a wait group's 32-bit counter round to zero under a sleeper notifies nobody; it is the only step
  that can leave one asleep at zero, so a run is safe if and only if it has none (`WaitGroupThreads.RunSafeIff`,
  `WaitGroupThreads.WrapStrandsSleeper`).
- `get_integer` and `parse_unsigned` read and bound the number written if and only if 10 * max + 9 does not wrap 64
  bits; otherwise 18446744073709551616 reads as 0 (`Scan.ExactIff`, `Scan.ParsedIff`, `Scan.WrapReadsZero`). Which
  single calls go wrong is exact too (`Scan.ExactUnlessWraps`, `Scan.ParsedFailsIff`).
- `parse_hex` on a 64-bit type asks the scanner for 16 digits, which the scanner refuses; only an empty body is read
  (`Scan.HexFailsIff`).
- Splitting gives back what was joined if and only if the list is non-empty and no element holds the delimiter
  (`Strings.SplitJoinExactly`).

Assumptions. Atomic operations are sequentially consistent. Moving a key or a value leaves the source usable, as
`try_emplace` compares keys after a move. Descriptor writes succeed. In the sequential dictionary `key_index` is an
arbitrary function into the buckets; the constructor sets it to the hash modulo the number of buckets. Counters that a
program cannot overflow before running out of memory are unbounded. The hook a dropping pipeline calls on the item it
is about to delete, and the completion function of a barrier, do nothing here.

`dafny verify dfyconfig.toml` checks the project.

## Model

| member | source | states |
|---|---|---|
| PipelineProgress.NeverStuck | src/pipeline.hpp:37-116 | Neither deadlock nor livelock: in every reachable open state the mutex holder can take a step, each of which brings it nearer to giving the mutex back, or with the mutex free an awake producer or consumer can, without a spurious wake-up or a close; any number of producers and consumers, other threads dropping and clearing |
| PipelineThreads.NeverAllAsleep | src/pipeline.hpp:66-116 | Although only the empty-to-one, full-to-less, drop and clear edges notify: all consumers asleep means empty, all producers asleep means full, and they never all sleep |
| PipelineThreads.NoLostWakeup | src/pipeline.hpp:157-163 | One producer and one consumer: each sleeps only while the ring gives it nothing to do |
| PipelineThreads.AwakeCanStep | src/pipeline.hpp:66-116 | A mutex holder is never blocked, and neither is an awake producer or consumer when the mutex is free |
| PipelineProgress.MutexComesFree | src/pipeline.hpp:66-116 | No livelock under the mutex: in any run, whatever the others do, a holder takes at most five own steps until it gives the mutex back |
| PipelineProgress.CallAlone | src/pipeline.hpp:37-116 | From call to outcome, uninterrupted, within seven steps and with the mutex free again: the answer with its effect and one sleeper notified if and only if its side has news; or the refusal or throw due; or sleep, exactly when the ring gives a waiting call nothing to do |
| PipelineProgress.WokenAlone | src/pipeline.hpp:157-163 | A woken waiter comes to the same outcomes, and sleeps again if its predicate is still false |
| PipelineProgress.HandOver | src/pipeline.hpp:83-116 | A pull on an empty ring sleeps, a push then answers true and wakes it, and the pull delivers that item |
| PipelineProgress.CanStep | src/pipeline.hpp:66-116 | Inside a call nothing but waiting for the mutex holds a thread up |
| PipelineThreads.StepKeepsWakes | src/pipeline.hpp:66-116 | While open, an item or free slot always has somebody awake on its side or about to be notified; every step keeps this |
| PipelineThreads.NoteHelps | src/pipeline.hpp:72-75 | A notification leaves someone of its side awake, whichever sleeper it picks |
| PipelineThreads.StepKeepsCore | src/pipeline.hpp:37-116 | Every step keeps: one mutex holder, parked threads saw a false predicate that still holds, closing progress, capacity, conservation |
| PipelineThreads.RunInv | src/pipeline.hpp:37-116 | All invariants hold in every state of every run |
| PipelineThreads.FifoConservation | src/pipeline.hpp:153-186 | In every run the history of accepted items is that of the removed ones in order followed by the queue, each queued, delivered or deleted, and the ring never overfills; AcceptedByPush and DeliveredToPull tie that history to the calls |
| PipelineThreads.HistoryGrows | src/pipeline.hpp:37-116 | What was accepted, delivered or deleted stays so, and the pipeline never reopens |
| PipelineThreads.ClosedForGood | src/pipeline.hpp:46-53 | From the return of the first close on the ring is empty, nothing is accepted or removed, and no thread is past its check of the flag |
| PipelineThreads.RefusedAfterClose | src/pipeline.hpp:66-116 | Every push, pull or drop that returns after that answers false, whenever its call began |
| PipelineThreads.CallStays | src/pipeline.hpp:66-116 | A call keeps its operation until it returns |
| PipelineCalls.CallAnswers | src/pipeline.hpp:37-116 | From entry to return, for every operation, class and interference: a call acted once and answers just that (a push its item stored, a pull the oldest item, a drop the oldest item deleted, a clear everything deleted), or did not and was refused, a push or pull by a close only, a drop by an empty and a drop_if by a not full ring, or threw on a full one |
| PipelineCalls.CallActsOnce | src/pipeline.hpp:66-116 | Inside a call nothing has been done yet, or exactly one effect, of its operation, on a ring ready for it |
| PipelineCalls.StepIsOneUpdate | src/pipeline.hpp:37-116 | Every step leaves the ring alone, is the one effect of an operation ready for it, or drops the oldest item for a push on a full dropping pipeline |
| PipelineCalls.AcceptedByPush | src/pipeline.hpp:83-98 | In every run the n-th accepted item is the argument of a push that acted as the n-th and answers true |
| PipelineCalls.DeliveredToPull | src/pipeline.hpp:100-116 | In every run a delivered n-th removal is what a pull answers, and is the n-th accepted item: first in, first out between calls |
| PipelineCalls.CloseInKind | src/pipeline.hpp:46-53 | Each step of a close sets the flag, wakes every sleeper of one side, clears or answers, in kind; CloseAlone and CloseWakesAll say that it goes through all of them |
| PipelineProgress.CloseAlone | src/pipeline.hpp:46-53 | From call to return, within eight steps: the first close sets the flag, wakes every sleeper of both sides and empties the ring; any other does nothing |
| PipelineProgress.CloseWakesAll | src/pipeline.hpp:46-53 | In any run, whoever slept in the pipeline when a close was about to exchange the flag has been woken once its closing clear is under way |
| PipelineThreads.SealedNext | src/pipeline.hpp:46-53 | One step of any thread after a returned close leaves the channel as it is |
| PipelineThreads.DescriptorReady | src/pipeline.hpp:217-230 | Queued items keep the descriptor readable, the clearing read never finds it empty, and under push and pull alone it holds one token exactly while the ring has items |
| PipelineThreads.StepKeepsFd | src/system.hpp:45-85 | Every step keeps the token accounting, for an event descriptor and for a pipe read 64 bytes at a time |
| PipelineThreads.ReadsOf | src/system.hpp:45-85 | One clearing read empties an event descriptor and takes up to 64 tokens from a pipe; one that finds nothing closes the descriptor |
| PipelineThreads.OnlyBlockingPushSleeps | src/pipeline.hpp:189-214 | A push on a dropping or throwing pipeline never waits |
| PipelineWindow.DroppingPushSlides | src/pipeline.hpp:189-201 | In any run, whatever the other threads do: a push on a dropping pipeline passes its loop at most twice, is refused only by a close, and otherwise leaves the last capacity items of what the ring held when it began and its own |
| PipelineWindow.WindowSlides | src/pipeline.hpp:189-201 | From any moment of a run on, while threads only push, the ring holds the last capacity items of what it held then and accepted since |
| PipelineWindow.WindowOfAll | src/pipeline.hpp:189-201 | So pushes alone leave exactly the last capacity of the pushed items |
| PipelineWindow.OthersLeaveRing | src/pipeline.hpp:66-116 | Nobody but the mutex holder changes the ring |
| Channel.TakeHeadConserves | src/pipeline.hpp:178-186 | Removing the head keeps first-in first-out conservation, whatever becomes of the item |
| Channel.InsertConserves | src/pipeline.hpp:83-98 | Accepting an item keeps it |
| Channel.DrainConserves | src/pipeline.hpp:37-44 | Clearing keeps it and accepts nothing |
| Channel.DrainRemoves | src/pipeline.hpp:37-44 | Clearing deletes exactly the queued items, in order |
| Channel.EachItemAccounted | src/pipeline.hpp:168-176 | Accepted items, with multiplicity, are the queued, the handed out and the deleted ones |
| Channel.EachItemInOneState | src/pipeline.hpp:168-176 | With distinct items (objects made by new) each is in exactly one of these states |
| Channel.WithFateCounts | src/pipeline.hpp:168-186 | An item is listed as delivered or deleted as often as it met that fate |
| Channel.SlidingWindow | src/pipeline.hpp:189-201 | Repeating the update that an accepted push of a dropping pipeline makes leaves the last capacity items of what was queued and pushed, all of them accepted |
| Channel.SlideIsLastN | src/pipeline.hpp:83-98 | That update drops the oldest item of a full ring and appends |
| Channel.NotifiesOnEdges | src/pipeline.hpp:72-75 | Notifications are due on the edges only: no longer empty, no longer full, emptied |
| Ring.Pipeline.constructor | src/pipeline.hpp:151-155 | A new ring is open, empty and blank throughout |
| Ring.Pipeline.Push | src/pipeline.hpp:83-98 | The retry loop: outcome for every full-ring rule, exact new queue and history, notifications on the empty edge only, at most two passes |
| Ring.Pipeline.Pull | src/pipeline.hpp:100-116 | Delivers the oldest item, blanks its slot, notifies on the full edge, lowers the descriptor when emptied |
| Ring.Pipeline.DropHead | src/pipeline.hpp:178-186 | Deletes the oldest item if there is one, notifying as told |
| Ring.Pipeline.Drop | src/pipeline.hpp:55-58 | Deletes the oldest item, notifying exactly when the ring was full |
| Ring.Pipeline.DropIf | src/pipeline.hpp:60-64 | Deletes the oldest item exactly when the ring is full |
| Ring.Pipeline.Clear | src/pipeline.hpp:37-44 | Deletes everything, leaves every slot blank, notifies if it removed something while open |
| Ring.Pipeline.Close | src/pipeline.hpp:46-53 | Closes; the first time only it notifies all sleepers of both sides and clears |
| Ring.Pipeline.AdvanceHead | src/pipeline.hpp:104-106 | Blanking the head slot and moving on removes exactly the oldest item |
| Ring.Pipeline.Store | src/pipeline.hpp:87-89 | Writing at the tail appends exactly one item |
| Ring.ModIsWrap | src/pipeline.hpp:88-88 | The ring's indices modulo the capacity |
| Rows.ApplyRefinesStacks | src/atomic.hpp:285-360 | The table is a stack of values per key: insert pushes, insert_or_assign replaces the top or pushes, try_emplace pushes on nothing, remove pops, other keys untouched |
| Rows.RemoveUndoesInsert | src/atomic.hpp:403-423 | remove takes back exactly the last insert of its key, restoring what it shadowed |
| Rows.FirstIsTop | src/atomic.hpp:362-370 | The first match of a walk is the top of the key's stack |
| Rows.ApplyRefinesMap | src/atomic.hpp:311-360 | Without plain inserts keys stay unique and the table acts as a finite map |
| Rows.RunRefinesMap | src/atomic.hpp:285-454 | So over every run from the empty table, with size the map's cardinality |
| Rows.SizeIsCardinality | src/atomic.hpp:429-443 | With unique keys, size is the number of keys and keys() lists each exactly once |
| Rows.KeysInOrder | src/atomic.hpp:433-443 | keys() goes bucket by bucket, each from its head |
| Rows.ApplyKeepsHashed | src/atomic.hpp:469-471 | Every entry stays in the bucket its key hashes to |
| Dictionary.Dictionary.constructor | src/atomic.hpp:243-247 | A new table is empty and indexes by the hash modulo the buckets |
| Dictionary.Dictionary.Insert | src/atomic.hpp:297-309 | Pushes one entry, keeping acyclic, disjoint, correctly hashed chains, the count and the node accounting |
| Dictionary.Dictionary.InsertBeside | src/atomic.hpp:330-342 | The same while the caller still holds a spare node |
| Dictionary.Dictionary.Link | src/atomic.hpp:302-305 | Linking a node in front of its bucket |
| Dictionary.Dictionary.InsertOrAssign | src/atomic.hpp:311-328 | Replaces the newest value of the key or pushes; the spare node is freed once |
| Dictionary.Dictionary.Overwrite | src/atomic.hpp:317-318 | Assigning through a node changes that entry alone |
| Dictionary.Dictionary.TryEmplace | src/atomic.hpp:344-360 | Pushes and answers true only if the key is absent; the spare node outlives the emplace and is freed once |
| Dictionary.Dictionary.Locate | src/atomic.hpp:362-370 | The walk down a bucket ends at the newest node with the key, or null if there is none |
| Dictionary.Dictionary.Find | src/atomic.hpp:362-370 | Answers the newest value of the key |
| Dictionary.Dictionary.Contains | src/atomic.hpp:372-381 | Answers whether the key has a value |
| Dictionary.Dictionary.At | src/atomic.hpp:393-401 | Returns the node of the newest value, or throws exactly when there is none |
| Dictionary.Dictionary.Remove | src/atomic.hpp:403-423 | Pops the newest value, unlinks and frees its node once |
| Dictionary.Dictionary.Unlink | src/atomic.hpp:409-414 | Bypassing a node removes it from its chain and from no other |
| Dictionary.Dictionary.Clear | src/atomic.hpp:285-295 | Empties every bucket and frees every node that was ever made and not yet freed |
| Dictionary.Dictionary.Release | src/atomic.hpp:288-292 | Deleting a detached list frees each of its nodes once |
| Dictionary.Dictionary.Keys | src/atomic.hpp:433-443 | Lists the keys bucket by bucket, newest first |
| Dictionary.Dictionary.Each | src/atomic.hpp:445-454 | Calls the callback down every bucket, storing the values it leaves and carrying what it gathers; chains, keys, order and count stay |
| Rows.EachReachesAll | src/atomic.hpp:445-454 | A callback that gathers nothing maps every stack value by value, shadowed ones included |
| Rows.EachUpdatesMap | src/atomic.hpp:445-454 | With unique keys the finite map is mapped value by value |
| Rows.EachVisitsOnce | src/atomic.hpp:445-454 | Whatever the callback does with its entry and gathers, it is called once for every entry, in the order of keys() |
| Rows.EachKeepsKeys | src/atomic.hpp:445-454 | each changes no key, so neither size nor keys() |
| Dictionary.Dictionary.SamePosition | src/atomic.hpp:456-471 | No node stands at two places of the table |
| Dictionary.ListCut | src/atomic.hpp:411-414 | A list stays a list when one node is bypassed |
| DictionaryThreads.ChainsStayLists | src/atomic.hpp:297-309 | With concurrent inserts and searches every bucket stays an acyclic, null-terminated list of allocated nodes in the right bucket, and no thread follows a bad address |
| DictionaryThreads.NoInsertLost | src/atomic.hpp:302-305 | Whatever a bucket linked stays linked in place, later inserts coming in front; with InsertReturns no insert is lost |
| DictionaryCalls.InsertReturns | src/atomic.hpp:297-309 | From call to return an insert answers true and pushed exactly one entry, of its own key and value, in between |
| DictionaryProgress.InsertAlone | src/atomic.hpp:297-309 | From call to return, uninterrupted: after six steps an insert answers true, has pushed its entry on any bucket, and has counted it; a search then finds it |
| DictionaryCalls.InsertLinearizes | src/atomic.hpp:297-309 | An insert past its compare-and-swap allocated its node with its own key and value, carried that one node, and pushed that entry when it swapped |
| DictionaryCalls.ChangesAreInserts | src/atomic.hpp:297-342 | Every change of the table in any run is the push of one insert call's own entry |
| DictionaryCalls.RepliesInKind | src/atomic.hpp:297-381 | An insert answers only after counting its node, a search only from its walk |
| DictionaryCalls.SwapSucceedsIff | src/atomic.hpp:302-305 | The head an insert is about to compare is the expected one if and only if nothing was linked into the bucket since it loaded it: no changed bucket passes for the same; SwapLinksIff is the step |
| DictionaryProgress.SwapLinksIff | src/atomic.hpp:302-305 | In any run the swap step that does not fail spuriously links its node if and only if nothing was linked into the bucket since the head was loaded, and otherwise loads again |
| DictionaryThreads.FindLinearizes | src/atomic.hpp:362-381 | A search answers what the table held for its key at a moment inside the same call: when it loaded the bucket head |
| DictionaryProgress.FindIsWaitFree | src/atomic.hpp:362-381 | Whatever the other threads do, a search over n nodes takes at most 2n+1 own steps from its load on |
| DictionaryProgress.FindAlone | src/atomic.hpp:362-381 | From call to return, uninterrupted: a search answers what the table holds for its key, within a bound given by the bucket |
| DictionaryProgress.CanStep | src/atomic.hpp:297-381 | Every thread inside a call always has a step that is no spurious failure |
| DictionaryThreads.SearchBegan | src/atomic.hpp:362-370 | That moment lies earlier in the run, and from it on the thread stays in that one search |
| DictionaryThreads.SearchUndisturbed | src/atomic.hpp:362-370 | The part of a bucket a search still has to visit is not touched by pushes |
| DictionaryThreads.StepIsOneInsert | src/atomic.hpp:297-342 | Every step changes nothing or pushes the entry of the node whose compare-and-swap it is |
| DictionaryThreads.CounterLags | src/atomic.hpp:307-307 | The count plus the threads between swap and count is the number of linked nodes |
| DictionaryThreads.StepKeepsCore | src/atomic.hpp:297-381 | Every step of every thread keeps the lists, the private nodes and the searches |
| DictionaryThreads.RunInv | src/atomic.hpp:297-381 | These hold in every state of every run |
| Base64.MakeLookup | src/binary.hpp:16-29 | The loop builds the table of places in the alphabet, 0xFF elsewhere |
| Base64.ValueInvertsLetter | src/binary.hpp:16-29 | The lookup is the exact inverse of the table of letters |
| Base64Standard.LetterIsAlphabet | src/binary.hpp:20-23 | The table is the literal alphabet of section 4 of RFC 4648 |
| Base64Standard.ValueIsPlace | src/binary.hpp:16-29 | The lookup gives every character its place in that alphabet and no other character one |
| Base64.EncodeB64 | src/binary.hpp:45-75 | The packing loop computes the encoding of RFC 4648, section 4 |
| Base64.GroupsOfTriple | src/binary.hpp:56-71 | Packing into one word and masking gives the standard's groups |
| Base64Standard.EncodesBits | src/binary.hpp:45-75 | Every character of an encoding is the letter for six bits of the input, in order, zero bits filling up, and '=' where no bit is left |
| Base64Standard.Examples | src/binary.hpp:45-75 | Examples of section 10 of RFC 4648, and the bytes FB EF BE |
| Base64.DecodeB64 | src/binary.hpp:89-115 | The loop computes the decoding, including both errors |
| Base64.DecodeQuad | src/binary.hpp:96-111 | The inner loop and the bytes it pushes, by padding count |
| Base64Standard.PaddingIsZeros | src/binary.hpp:96-111 | Wherever it stands, '=' decodes as six zero bits and takes one byte off its quad |
| Base64.EncodedLength | src/binary.hpp:52-52 | Four characters for every started triple |
| Base64.EncodeConcat | src/binary.hpp:55-62 | Whole triples encode on their own |
| Base64.DecodeEncode | src/binary.hpp:45-115 | Decoding an encoding gives the bytes back, for all byte strings |
| Base64.DecodeAccepts | src/binary.hpp:89-115 | Decoding succeeds exactly on lengths divisible by four over the alphabet and '=' |
| Base64.EncodeIsCanonical | src/binary.hpp:64-72 | Every encoding is canonical |
| Base64.CanonicalEncodes | src/binary.hpp:89-115 | A canonical text is accepted and recovered by encoding |
| Base64.RecoveredIffCanonical | src/binary.hpp:89-115 | Among accepted texts exactly the canonical ones are recovered |
| Base64.PaddingAnywhere | src/binary.hpp:99-111 | Four padding characters are accepted and not recovered |
| Hex.MakeLookup | src/binary.hpp:31-43 | The loops build the table of digit values in either case |
| Hex.EncodeHex | src/binary.hpp:77-87 | The loop computes the hexadecimal encoding |
| Hex.EncodesDigits | src/binary.hpp:77-87 | Each byte is its high and then its low digit, of the literal alphabet |
| Hex.DecodeHex | src/binary.hpp:117-134 | The loop computes the decoding, including both errors |
| Hex.DecodeEncode | src/binary.hpp:77-134 | Decoding an encoding gives the bytes back |
| Hex.EncodeDecode | src/binary.hpp:77-134 | Encoding what was decoded gives the text in upper case |
| Hex.DecodeAccepts | src/binary.hpp:117-134 | Decoding succeeds exactly on even lengths of digits; which error otherwise |
| Guards.EachSpentOnce | src/sync.hpp:23-229 | However guards are constructed, moved, dropped, waited on and destroyed, what was made on a target is what it received plus the guards still armed, and no guard follows a null address |
| Guards.AllSpent | src/sync.hpp:121-131 | Once no guard is armed every one has been spent exactly once |
| Guards.PermitsPlusScopes | src/sync.hpp:103-131 | Per semaphore, permits plus guards still holding one is the initial number of permits, over every run |
| Guards.ApplyBalances | src/sync.hpp:109-116 | Each operation keeps that balance, self-move included |
| Guards.ObligationsMove | src/sync.hpp:23-229 | A guard is armed when constructed; a move hands the obligation over whole, disarms the source and first discharges the destination; settling or destroying discharges once; no other guard is touched |
| Guards.ApplyKeepsSafe | src/sync.hpp:29-51 | A handle without a target is never armed; a barrier handle then has its dropped flag set |
| Scopes.SemaphoreScope.Release | src/sync.hpp:126-131 | Returns the permit once and forgets the semaphore |
| Scopes.SemaphoreScope.MoveAssign | src/sync.hpp:111-116 | Releases its own permit, takes the other's, nothing on self-move |
| Scopes.WaitGroup.Add | src/sync.hpp:159-162 | Adds in 32-bit arithmetic |
| Scopes.WaitGroup.Release | src/sync.hpp:164-172 | Counts down, saturating, and says when it reached zero |
| Scopes.GroupScope.MoveAssign | src/sync.hpp:206-211 | Releases its own group, takes the other's, nothing on self-move |
| Scopes.BarrierScope.Drop | src/sync.hpp:46-51 | Arrives once if still armed, and leaves the barrier |
| Scopes.BarrierScope.Wait | src/sync.hpp:53-58 | Arrives once if still armed, and stays a participant |
| Scopes.BarrierScope.Destroy | src/sync.hpp:31-35 | Arrives once if still armed, and stays a participant |
| Scopes.BarrierScope.MoveAssign | src/sync.hpp:37-44 | Drops its own arrival, leaving that barrier, takes over the other's state and disarms it |
| Scopes.BarrierScope.MoveFrom | src/sync.hpp:29-29 | Takes over the state and leaves the source disarmed |
| WaitGroupThreads.LedgerBalances | src/sync.hpp:136-229 | For disciplined callers count plus releases is the initial count plus adds, it covers the live guards, and nobody sleeps at zero |
| WaitGroupThreads.ReleaseNeverSaturates | src/sync.hpp:164-172 | release then never finds the count at zero |
| WaitGroupThreads.WaitReturnsAtZero | src/sync.hpp:174-177 | A wait returns if and only if it evaluates its predicate at zero, on entering or once woken; otherwise it sleeps |
| WaitGroupThreads.ReleasedWaiterReturns | src/sync.hpp:164-177 | Over every run: a waiter asleep when a release takes the count to zero returns by its own next step, unless work is added first |
| WaitGroupThreads.ReleaseWakesAtZero | src/sync.hpp:164-172 | A release wakes every sleeper if it takes the count to zero, and nobody otherwise |
| WaitGroupThreads.SleepersSafeIff | src/sync.hpp:159-177 | The only step that can leave a sleeper at zero, releases without a guard included, is an add that wraps to zero under it |
| WaitGroupThreads.RunSafeIff | src/sync.hpp:136-186 | In every run of any callers no unnotified sleeper meets a zero count if and only if no add wraps to zero under one |
| WaitGroupThreads.WrapStrandsSleeper | src/sync.hpp:159-162 | A fresh group, one wait and one such add: the waiter sleeps at zero |
| Strings.Count | src/common.hpp:64-71 | Counts the occurrences |
| Strings.FindFirstOf | src/strings.hpp:164-168 | The first position of any delimiter from a start |
| Strings.Split | src/strings.hpp:157-172 | The loop computes the pieces, for any delimiter set and limit |
| Strings.SplitLosesOnlyCuts | src/strings.hpp:157-172 | For any delimiter set and limit splitting drops one delimiter between each two pieces and nothing else, and leaves none but in a capped last piece |
| Strings.Join | src/strings.hpp:174-183 | The loop puts the separator between neighbours |
| Strings.JoinedFront | src/strings.hpp:174-183 | Joining puts the separator, of any length, between neighbours |
| Strings.JoinSplit | src/strings.hpp:157-183 | Joining what was split at one character gives the text back, for every limit |
| Strings.SplitCount | src/strings.hpp:165-170 | One piece more than delimiters, capped by the limit; only a capped last piece still holds one |
| Strings.SplitJoin | src/strings.hpp:157-183 | Splitting what was joined gives the list back when no element holds the delimiter |
| Strings.SplitJoinExactly | src/strings.hpp:157-183 | And for no other list: the empty list, or one with a delimiter in an element, does not come back |
| Scan.GetInteger | src/scan.hpp:57-73 | The loop computes the wrapping 64-bit scan; its value is that of the consumed digits modulo 2^64, and unless 10*max+9 can wrap it consumes exactly the longest digit prefix with value at most max |
| ScanDigits.DigitsAre | src/scan.hpp:59-66 | The digits, literally |
| ScanDigits.NumberOfPair | src/scan.hpp:66-67 | The place-value law: a text in front counts ten to the length behind it |
| Scan.ExactIff | src/scan.hpp:57-73 | It does so on every input if and only if 10*max+9 does not wrap |
| Scan.ExactUnlessWraps | src/scan.hpp:65-70 | Call by call: it does so if and only if the digit after that prefix does not wrap round to a value within max |
| Scan.WrapReadsZero | src/scan.hpp:65-70 | For every other max the text of 2^64 is consumed whole and read as 0 |
| Scan.ParseUnsigned | src/scan.hpp:141-154 | The answer on every input; unless 10*max+9 can wrap it accepts exactly the all-digit texts with value within the bounds, empty being 0; each error |
| Scan.ParsedIff | src/scan.hpp:141-154 | It answers so on every input if and only if 10*max+9 does not wrap |
| Scan.ParsedFailsIff | src/scan.hpp:141-154 | Call by call: it misses that exactly on digits writing a number above max of which every prefix, wrapped round, is within max |
| Scan.ParseDuration | src/scan.hpp:212-239 | The number times its unit modulo 2^32, exact when it fits; each error |
| ScanDigits.Units | src/scan.hpp:219-236 | The units in seconds and milliseconds, literally, and no others |
| ScanDigits.DurationOfNumber | src/scan.hpp:212-222 | A bare number of up to 32 bits is itself, a larger one is refused |
| Scan.ScanVersusLead | src/scan.hpp:216-218 | The scan stops at the end of the digits or, on a number too large, before another digit |
| Scan.GetHex | src/scan.hpp:45-55 | Consumes hex digits up to the limit and returns their value, or 0 in front of another character |
| ScanDigits.NibblesAre | src/scan.hpp:45-55 | The hex digits of either case, literally |
| ScanDigits.HexNumberOfPair | src/scan.hpp:45-55 | The place-value law in base 16 |
| Scan.ConsumePrefix | src/scan.hpp:32-43 | Takes the prefix, or else one '$', off the front |
| Scan.ParseHex | src/scan.hpp:114-125 | The answer on every input: at most two digits per byte within the bounds after a prefix, but only the empty body on 64-bit types |
| Scan.HexFailsIff | src/scan.hpp:114-125 | It misses what it should answer exactly on 64-bit types with a body of 1 to 16 hex digits, such as "1" |
| Framing.PiecesMakeUpInput | src/buffer.hpp:52-73 | Over any run of calls the pieces with their delimiters are exactly the consumed bytes |
| Framing.MemoryBuf.ZbGetView | src/buffer.hpp:61-73 | Ends at the leftmost delimiter at or after the cursor; fails exactly when there is none, leaving the cursor |
| Framing.MemoryBuf.ZbGetBody | src/buffer.hpp:52-59 | Takes the bytes if they are there, else leaves the cursor |
| Framing.MemoryBuf.Used | src/buffer.hpp:39-42 | The number of bytes consumed |
| Framing.MemoryBuf.Readable | src/buffer.hpp:44-46 | Whether bytes are left |
| Framing.MemoryBuf.Input | src/buffer.hpp:22-28 | Starts at the first byte |
| Power.RepeatedSquaring | src/common.hpp:73-84 | Terminates with the power modulo the word, though both variables wrap on every pass |
| Power.PowSum | src/common.hpp:73-84 | The law of exponents for the specified power |
| Power.PassKeepsProduct | src/common.hpp:77-82 | One pass keeps result times the remaining power, modulo the word |

## Left out

- Every sleeper waking after `close`, and fairness between sleepers of one side: `close` notifies without the mutex and only edges notify, so these are not properties of the code.
- Ring.Pipeline.Push: does not wait on its own; it answers `Waits` and the thread model covers what follows.
- Scopes.SemaphoreScope.Acquire: asks for a free permit; waiting for one belongs to the scheduler.
- `stack_t` and `buffer_t` of `src/atomic.hpp`: their index arithmetic does not give last-in first-out or first-in first-out order.
- Dictionary moves and `operator[]`, and removal or assignment concurrent with other calls: the unlinking store is not a compare-and-swap. A lone caller's compare-and-swap is taken to succeed at once.
- Dictionary.Dictionary.Each: does not model a callback that changes the table it is called from, or throws; what it gathers is a value carried from call to call.
- Weak memory orders, memory reclamation under concurrent readers, and the 64-bit width of the dictionary's counter.
- `wait_for`, `wait_until` and `event`: timed and thin wrappers of HPX primitives.
- `parse_size`, `parse_integer` and the floating-point scanners: wrapping or rounding is their point.
- `tokenize`, `unquote`, trimming and case helpers, `byte_array`, sockets, files, timers and printing.
- Output buffers, `underflow` and `overflow` of `memorybuf`, and inputs of 2^31 bytes and more, where the stream's cursor takes an `int`.
- Signed types and types narrower than 32 bits in `pow`.
