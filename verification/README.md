# Two host/device rings

This project models the two queues by which the driver library in `lib/ioat.c` and `lib/nvme.c` talks to hardware, and proves what the two drivers rely on.

* **I/OAT copy engine.** A ring of descriptors with free-running 32-bit `head` and `tail` counters, a doorbell cut to 16 bits, and a single completion word that names one descriptor address. From that the driver has to find out whether anything is new, how many descriptors to retire, and whose callbacks to run.
* **NVMe queue pair.** A submission and a completion queue, a table of requests and one PRP list page per request. The driver never looks at the submission head that the controller reports, and detects completions by a phase tag only.

Each queue is modelled twice. `IoatModel` and `NvmeModel` are state machines over values: the fields of the driver, the device, and the history of the run in true, unbounded counts. Driver and device steps interleave in any order; a callback is a window in which the driver may build, flush, submit and (NVMe) poll again, to any depth. `IoatChannel.Channel` and `NvmeQueuePair.QueuePair` are classes with the driver's own fields, arrays, masks and loops, updated in place; every method is proved against the state machine, for any behaviour of the device and of the callbacks in between.

| file | content |
|---|---|
| `Words.dfy` | powers of two, bitwise AND, wrapping arithmetic |
| `Dma.dfy` | what descriptors do to memory; chunked copies and fills against one whole memmove or fill |
| `IoatModel.dfy`, `IoatInvariant.dfy`, `IoatTheorems.dfy`, `IoatChannel.dfy` | the I/OAT channel: steps, invariant, results, implementation |
| `IoatInterleaving.dfy` | the engine running in the middle of a build or of a flush |
| `IoatDraining.dfy` | from a flush to the end: descriptors, doorbell, engine, `propig_ioat_process_events`; register values and return codes in literal form |
| `IoatReentry.dfy` | callbacks that call `propig_ioat_process_events` again |
| `Prp.dfy` | PRP entries and lists: the driver's encoding, and the controller's decoding by section 4.3 of the NVM Express Base Specification 1.4, chain entries included |
| `NvmeModel.dfy`, `NvmeInvariant.dfy`, `NvmeTheorems.dfy`, `NvmeQueuePair.dfy` | the NVMe queue pair, likewise |
| `NvmeDraining.dfy` | from a submission to its callback: acceptance, the request taken, completion in any order, status codes in literal form |
| `NvmeInterleaving.dfy` | the controller acting in the middle of a submission or of a poll |

The results are stated for every reachable state, that is every state at the end of some trace of steps from a fresh one. The invariants behind them (`IoatInvariant.Inv`, `NvmeInvariant.Inv`) hold in all of these and are also what the classes keep.

Ring order, ring address, transfer limit, queue size, page size and block size are parameters (`Config.Good` says which values the source can have).

What the device may do is the engine's and the controller's contract: the engine follows `next` from the first descriptor, executes in order up to its doorbell and writes address and status where a completion is asked for; the controller fetches up to the tail doorbell and posts each fetched command once, in any order, with a phase that flips on each pass.

Where the code falls short of what one would like, the model keeps the code's behaviour, and the exact condition is proved:

* A transfer limit of 4 GiB is truncated to a descriptor length of 0 (`Dma.CopyTilesIff`, `Dma.CopyExactIff`, `Dma.FillExactIff`).
* A copy of several chunks whose destination starts inside its source loses data, although each chunk alone is copied correctly (`Dma.CopyExactIff`).
* `propig_ioat_build_fill` of no bytes fails with -ENOMEM while `propig_ioat_build_copy` of no bytes issues a null descriptor (`IoatTheorems.BuildAllOrNothing`).
* `nvme_submit_io` takes a scatter list if and only if its total is a multiple of the page size and small enough and some segment is at least a page long (`NvmeDraining.AcceptedIff`); it checks only the total length of the scatter list, and does not compare it with `bytes` (`NvmeTheorems.OutstandingExactIff`, `NvmeTheorems.TotalAlignmentIsNotEnough`, `NvmeTheorems.BlockCountIff`).
* A callback that calls `propig_ioat_process_events` again runs a second time, and the ring looks full afterwards (`IoatReentry.CallbackRunsTwice`); callbacks are exactly once in every run in which such calls return at once (`IoatReentry.QuietIsExact`), and an inner call returns at once if and only if the channel is halted or the completed descriptor is `last_seen` (`IoatReentry.ReentryRefires`).
* Before the engine has written the completion word, the word is whatever memory held, and a call may take it for a completion (`IoatTheorems.EarlyPollRetiresUnexecuted`). The comparison with `last_seen` is right if and only if something has completed or the word holds no address (`IoatTheorems.LastSeenIsSoundIff`).
* `nvme_translate_error` ignores the status code type (`NvmeTheorems.SuccessReportedIff`, `NvmeTheorems.FailureTakenForSuccess`).

A request is called exact when its chunks have the effect of the whole operation on every memory: by `Dma.CopyExactIff` and `Dma.FillExactIff` that is when no chunk is 4 GiB long and, for a copy of several chunks, the destination does not start inside the source behind its first byte; ranges must not wrap around the address space.

Assumed of the callers and the platform:

* The descriptor ring is aligned to 64 bytes (the completion mask needs it, `calloc` does not promise it) and not at address 0.
* `req_next`, a signed int that only grows, stays below 2^31.
* `propig_ioat_process_events` is called when nothing is outstanding, or something has completed, or the completion word is halted or holds no address; `ioat_channel_init` waits until something has completed. Outside `IoatReentry`, I/OAT callbacks do not call it.
* The engine reports idle only when it has executed and reported everything announced.
* Transfers do not touch what the driver and the devices share: the descriptor ring, the completion word, the NVMe queues and the PRP list pages. Bus addresses equal virtual addresses, but the memory that descriptors work on is kept apart from these in the model.
* A single copy descriptor reads all its bytes before it writes any. `Dma.CopyExactIff` rests on this for source and destination that overlap within one chunk.
* Memory is sequentially consistent.

## Model

| member | source | states |
|---|---|---|
| IoatTheorems.EveryRun | lib/ioat.c:72-741 | In every run from start-up, whatever is built, flushed, executed and retired in whatever order: the callbacks that have run are a prefix of those the accepted requests ask for, and whenever the engine is drained memory is the accepted operations applied whole, in order, if all of them are exact (see above). |
| IoatTheorems.CallbackAfterEffects | lib/ioat.c:243-254 | End to end: when a callback is about to run, its request is identified, all its descriptors have been executed, and if these requests are exact, memory holds the whole operations of all requests up to and including it, in order, followed only by descriptors of later requests. |
| IoatTheorems.MemoryRefinesRequests | lib/ioat.c:637-671 | Once the engine has executed the descriptors of the first r requests, memory is those r whole operations in submission order, if they are exact, plus the single descriptors executed beyond them. |
| IoatTheorems.EntriesHaveEffect | lib/ioat.c:638-653 | Executing all chunks of any list of exact requests has the effect of the whole operations in order. |
| IoatTheorems.CallbackInOrder | lib/ioat.c:243-254 | The callback about to run is that of an accepted request r, whose last descriptor is at `tail`; exactly the callbacks of the requests before r have run. |
| IoatTheorems.FiredIsPrefix | lib/ioat.c:243-254 | Callbacks are first-in first-out and at most once; all have run when `head == tail`. |
| IoatTheorems.CallbackOwner | lib/ioat.c:659-661 | Only the last descriptor of a request carries its callback, and it ends exactly that request. |
| IoatTheorems.BuildAllOrNothing | lib/ioat.c:632-741 | A build succeeds if and only if the chunk count fits the ring space (and, for a fill, fills are supported and the range is not empty); success appends exactly the request's descriptors with the callback on the last (one null descriptor for an empty copy), failure returns -1 or -12 and leaves head, tail, every live descriptor of both rings and the reserved slot as they were. |
| IoatTheorems.NeedsIsCount | lib/ioat.c:637-657 | A request turns into ceil(n / max) descriptors, one for an empty copy, none for an empty fill. |
| IoatTheorems.WrappedCountersAreExact | lib/ioat.c:48-59 | Across 2^32 wraps the masked difference is the true number of live descriptors, space + live + 1 is the ring size, and live descriptors occupy different slots. |
| IoatTheorems.DoorbellIsExact | lib/ioat.c:72-79 | The 16-bit doorbell minus the engine's 16-bit count is the true number of flushed, unexecuted descriptors, after wraps and rollbacks. |
| IoatTheorems.DoorbellSufficesIff | lib/ioat.c:78 | Every backlog a ring can have is read back from 16-bit counts if and only if the ring order is at most 16. |
| IoatTheorems.ChainIsOneCycle | lib/ioat.c:358-362 | In every reachable state the `next` pointers are one cycle over the whole ring: k hops from slot i reach slot i + k, and every slot is met exactly once per round. |
| IoatTheorems.NoLostCompletion | lib/ioat.c:222-259 | With everything announced, the engine drained, and any status but 3 in the low three bits of the completion word, one call retires everything (`head == tail`) and runs all remaining callbacks, whatever builds, failed builds and flushes came before. |
| IoatDraining.FlushedIsRetired | lib/ioat.c:72-259 | From a flush to the end, for every reachable state: the engine can execute exactly what is built and not executed, and if its last status is not 3, one call then retires everything and runs all remaining callbacks. |
| IoatDraining.FlushDrains | lib/ioat.c:72-79 | After a flush exactly as many engine steps are possible as there are unexecuted descriptors, whatever statuses they report; then everything built has been executed and completed. |
| IoatDraining.FlushAnnounces | lib/ioat.c:72-79 | From every reachable state a flush leaves everything built announced, the doorbell at the low 16 bits of the count, and the last descriptor marked. |
| IoatDraining.ReportsWhereAsked | lib/ioat.c:72-79 | The engine reports a completion at the descriptors that were last at some flush and at no others. |
| IoatDraining.PollDecidesIff | lib/ioat.c:222-241 | Once something has completed, a call starts to retire if and only if something completed is not retired and the low three bits of the word are not 3; it then retires up to the last completed descriptor, and otherwise changes nothing. |
| IoatDraining.AllowedIff | lib/ioat.c:72-259 | When driver, engine and callers may act in the state machine: at any time outside the function and inside callbacks, while the counts differ, and when the completion word can be read. |
| IoatDraining.DescriptorWritten | lib/ioat.c:81-164 | The three descriptors as the hardware reads them: operation codes, null bit and size 8, addresses, no completion yet, the link kept. |
| IoatDraining.ExactIff | lib/ioat.c:637-726 | A request that stays inside the address space is exact if and only if its chunks have its whole effect on every memory. |
| IoatTheorems.SourceConfigs | lib/ioat.c:317-350 | The parameters of the source are among those of the model: 2^15 descriptors, any transfer limit from 4 KiB to 4 GiB, any aligned ring. |
| IoatTheorems.RetiresExactlyGoal | lib/ioat.c:243-256 | Whatever the engine does and callbacks build and flush meanwhile, the loop goes round exactly goal - tail times and retires exactly the descriptors up to the completion it read first. |
| IoatInterleaving.BuildCommutesWithEngine | lib/ioat.c:637-671 | The engine may run after any number of descriptors of a build; when the build is finished, with its callback or by rolling back, the state is that of the build made at once with the engine running afterwards. |
| IoatInterleaving.IssueCommutesWithEngine | lib/ioat.c:638-653 | From any point inside a build, any number of engine steps and the rest of the descriptors give the same state in either order. |
| IoatInterleaving.FinishCommutesWithEngine | lib/ioat.c:659-671 | So do engine steps and the end of the build. |
| IoatInterleaving.FlushCommutesWithEngine | lib/ioat.c:72-79 | The engine may run between the marking of the last descriptor and the doorbell; the state is that of the flush made at once with the engine running afterwards. |
| IoatReentry.CallbackRunsTwice | lib/ioat.c:243-256 | From every fresh channel, a run in which the callback of the only request calls the function again: the callback runs twice, the outer call steps over the completed descriptor, and no space is left in the ring. |
| IoatReentry.ReentryRefires | lib/ioat.c:227-252 | A call from inside the callback of request r returns at once if and only if the channel is halted or the completed descriptor is `last_seen`; otherwise the first thing it does is to run the callback of r again. |
| IoatReentry.QuietIsExact | lib/ioat.c:243-254 | In every run in which calls from inside callbacks return at once, callbacks run in order and at most once. |
| IoatTheorems.LastSeenIsSoundIff | lib/ioat.c:231-256 | No ABA: outside the call, the completed address equals `last_seen` exactly when nothing new has completed, if and only if something has completed at all or the word holds no address; and once something has completed, it names the last completed descriptor. |
| IoatTheorems.EarlyPollRetiresUnexecuted | lib/ioat.c:227-256 | A completion word that holds the address of the first descriptor before anything has completed makes the loop retire a request the engine has not been told of. |
| IoatTheorems.EngineExecutesSubmissions | lib/ioat.c:72-79 | The engine's 16-bit count differs from the doorbell if and only if something announced is unexecuted, and following `next` it fetches exactly the next submission in order, as it was submitted. |
| IoatInvariant.BuildOutcome | lib/ioat.c:619-741 | Both builds keep the invariant, succeed if and only if the request is acceptable, and log exactly its entries or nothing. |
| IoatInvariant.NextInv | lib/ioat.c:72-741 | Every step of driver, engine and callbacks keeps the invariant. |
| IoatInvariant.RunInv | lib/ioat.c:72-741 | So does every run. |
| IoatInvariant.ReachableInv | lib/ioat.c:72-741 | Every state reachable from start-up has the invariant. |
| IoatInvariant.ReachableRun | lib/ioat.c:72-741 | Every run from a reachable state ends in a reachable state. |
| IoatModel.MasksAreRemainders | lib/ioat.c:48-59 | The ring mask, the completed-descriptor mask and the status mask compute remainders and round down to a descriptor address. |
| Dma.CopyExactIff | lib/ioat.c:637-653 | A chunked copy is a memmove on every memory if and only if source and destination coincide, or no chunk is 4 GiB long and no later chunk reads what an earlier one wrote. |
| Dma.OverlapLosesData | lib/ioat.c:637-653 | A forward overlap of a copy of several chunks loses data for some memory. |
| Dma.TruncationLosesData | lib/ioat.c:107-109 | A copy with a 4 GiB chunk loses data for some memory. |
| Dma.FillExactIff | lib/ioat.c:709-726 | A chunked fill keeps the phase of the 8-byte pattern across chunks and equals one fill if and only if no chunk is 4 GiB long. |
| Dma.CopyTilesIff | lib/ioat.c:637-653 | The chunks tile the range exactly, none empty or longer than the limit, if and only if no chunk is 4 GiB long. |
| Dma.FillTilesIff | lib/ioat.c:709-726 | Likewise for fills. |
| Dma.CopyChunkAt | lib/ioat.c:638-653 | Chunk j starts j limits into both ranges and is as long as the limit or as what is left, cut to 32 bits. |
| Dma.FillChunkAt | lib/ioat.c:711-726 | Likewise for fills, with the same pattern in every chunk. |
| IoatChannel.Channel.constructor | lib/ioat.c:345-372 | The linked, empty channel, whatever the completion word holds. |
| IoatChannel.Channel.Link | lib/ioat.c:358-362 | The linking loop gives every slot its address and its predecessor a link to it, across the wrap at 0. |
| IoatChannel.Channel.IssueStartup | lib/ioat.c:374-375 | The start-up null descriptor is accepted and announced, and nothing else. |
| IoatChannel.Channel.Start | lib/ioat.c:374-393 | Reads the status up to a hundred times, until it is idle (low three bits 1), with the engine running in between; succeeds if and only if the last status read is idle, fails only after a hundred that are not; on success the start-up descriptor has completed and is retired, unless its completion says halted. |
| IoatChannel.Channel.GetRingIndex | lib/ioat.c:56-59 | The masked index is the ring slot. |
| IoatChannel.Channel.GetActive | lib/ioat.c:48-50 | The masked difference is the true number of live descriptors. |
| IoatChannel.Channel.GetRingSpace | lib/ioat.c:52-54 | Space, live count and the reserved slot add up to the ring. |
| IoatChannel.Channel.PrepNull | lib/ioat.c:81-105 | Writes one null descriptor and its cleared callback at head, or nothing in a full ring. |
| IoatChannel.Channel.PrepCopy | lib/ioat.c:107-134 | Likewise for a copy descriptor. |
| IoatChannel.Channel.PrepFill | lib/ioat.c:136-164 | Likewise for a fill descriptor. |
| IoatChannel.Channel.BuildCopy | lib/ioat.c:619-672 | The copy loop, the null descriptor for empty copies, the callback and the rollback, with the engine running between any two descriptors: the state machine's build, followed by those engine steps. |
| IoatChannel.Channel.BuildFill | lib/ioat.c:688-741 | Likewise for fills. |
| IoatChannel.Channel.Flush | lib/ioat.c:72-79 | Marks the last descriptor and writes the low 16 bits of the count of everything built, with the engine running in between: the state machine's flush, followed by those engine steps. |
| IoatChannel.Channel.RetireOne | lib/ioat.c:243-252 | One round: the callback runs, anything may happen, and only then tail moves. |
| IoatChannel.Channel.RetireUpTo | lib/ioat.c:243-254 | The loop terminates and counts exactly the descriptors it retires, with engine and callbacks active in between. |
| IoatChannel.Channel.ProcessEvents | lib/ioat.c:222-259 | Returns -1 if and only if work is outstanding and the low three bits of the word are 3, and otherwise exactly the number of descriptors completed but not retired at the call, which it retires, with nothing happening outside the loop. |
| NvmeTheorems.EveryRun | lib/nvme.c:236-709 | In every run of a fresh queue pair, inside nested callbacks too: as many callbacks as consumed completions, the order consumed, posted, fetched, submitted, at most q - 1 submissions unconsumed, and `inflight` as the number of used requests less the callbacks in progress. |
| NvmeTheorems.OwnershipPartition | lib/nvme.c:236-272 | In every reachable state a request is used if and only if exactly one outstanding submission owns it, and that one is either unfetched in the queue, executing, posted but not consumed, or being called back, never two of these. |
| NvmeTheorems.StagesAddUp | include/nvme.h:15-19 | The used requests are counted by those four stages, which together leave one queue slot empty. |
| NvmeTheorems.SubmitNeverOverwrites | lib/nvme.c:265-272 | The write at the tail never hits an unfetched command and never makes a full queue look empty, although the driver ignores the reported head. |
| NvmeTheorems.CompletionNeverOverflows | lib/nvme.c:703-707 | A completion never overwrites an unconsumed entry and always finds room by the head doorbell the driver last wrote, however deep callbacks are nested. |
| NvmeTheorems.PhaseTagIsExact | lib/nvme.c:681-688 | Over any number of wraps the phase test holds if and only if a posted entry is unconsumed; the entry is then intact and is consumed once, in posting order. |
| NvmeTheorems.CallbacksMatchCompletions | lib/nvme.c:690-703 | Callback i is the one of the submission that completion i names, with its own argument and the translated status of that completion; no submission is called back twice. |
| NvmeTheorems.EverySubmissionAnswered | lib/nvme.c:656-709 | Once everything submitted has been consumed, every submission has been called back exactly once. |
| NvmeDraining.EveryCommandIsAnswered | lib/nvme.c:236-709 | From every reachable state outside callbacks, the controller can fetch every command and complete all of them in any order and with any status, and as many polls as there are completions then run every callback, free every request and leave both queues empty. |
| NvmeDraining.AnyOrder | lib/nvme.c:690-703 | Executing commands can be completed in any order. |
| NvmeDraining.FetchesAll | lib/nvme.c:250-272 | Every submitted command can be fetched. |
| NvmeDraining.CallbackStatus | lib/nvme.c:109-122 | In every reachable state callback i has been given 0, -38, -22 or -5 exactly for status code 0, 1, 2 or any other of completion i, with the callback and argument of its own submission. |
| NvmeDraining.DoneFreesOne | lib/nvme.c:702-707 | When a callback has returned, exactly its request becomes free and the head doorbell shows every entry taken. |
| NvmeDraining.BadCidIsSkipped | lib/nvme.c:691-697 | An entry with a CID of 0 or beyond the queue is stepped over without callback, request or doorbell. |
| NvmeDraining.AcceptedIff | lib/nvme.c:573-594 | A scatter list is accepted if and only if its total is a multiple of the page size, at most page/8 pages, and some segment is at least a page long. |
| NvmeDraining.WellFormedIsSubmitted | lib/nvme.c:567-611 | Every well-formed request of one to page/8 pages is submitted whenever a request is free. |
| NvmeDraining.SubmitTakesFirstFree | lib/nvme.c:567-611 | A submission takes the first free request in cyclic order, moves the counter just past it, touches no other request, and queues and announces one command that asks for what was requested. |
| NvmeDraining.AdminTakesFirstFree | lib/nvme.c:282-293 | A synchronous command likewise, queued unchanged but for the CID. |
| NvmeDraining.AllowedIff | lib/nvme.c:236-709 | When driver, controller and callers may act in the state machine. |
| NvmeDraining.SourceConfigs | include/nvme.h:10-19 | The parameters of the source are among those of the model: queues of 128 entries and 127 requests, pages of 4 KiB, list pages of 512 entries. |
| NvmeTheorems.CommandIntegrity | lib/nvme.c:567-611 | Whatever other submissions, polls, callbacks and controller steps follow, until its callback has returned a command stays intact in the queue and then in the controller, its request stays used with its CID, callback and argument, and its transfer is exact if and only if the request was well formed. |
| NvmeTheorems.OutstandingExactIff | lib/nvme.c:547-607 | While a command is outstanding, direction, forced unit access, start, length and pages as the controller reads them are those of the request if and only if every segment is page aligned and whole, `bytes` is their total, and the transfer is 1 to 65536 whole blocks from the start of a block. |
| NvmeTheorems.ExactIff | lib/nvme.c:547-607 | The same for any command built over a stored page list. |
| NvmeTheorems.AsksIff | lib/nvme.c:547-566 | CDW10 and CDW11 rejoin to the byte offset if and only if it is the start of a block; direction, namespace and forced unit access always arrive, and no other flag is set. |
| NvmeTheorems.TransferMeansRequest | lib/nvme.c:579-607 | Every byte of a well-formed transfer goes to or comes from its own byte of the scatter list. |
| NvmeTheorems.TotalAlignmentIsNotEnough | lib/nvme.c:573-590 | A concrete scatter list that passes the checks although its page list covers half of it. |
| NvmeTheorems.BlockCountIff | lib/nvme.c:547-548 | (NLB + 1) blocks are exactly `bytes` if and only if `bytes` is between 1 and 65536 whole blocks. |
| NvmeTheorems.BlockCountIsExact | lib/nvme.c:547-590 | With 4 KiB pages and blocks of 512 bytes to 4 KiB, every accepted scatter list whose total is `bytes` has a block count that covers exactly `bytes`, without truncation, and that is the page list if all segments are whole pages. |
| NvmeTheorems.AccountingIsConserved | lib/nvme.c:250-272 | Between calls nothing waits for a doorbell, both doorbells show the driver's indices, and `inflight` is the number of used requests (one fewer per callback in progress). |
| NvmeTheorems.RoundRobinIsComplete | lib/nvme.c:236-248 | The search visits different slots, fails if and only if all are used, and otherwise takes the first free slot in cyclic order. |
| NvmeTheorems.SuccessReportedIff | lib/nvme.c:109-122 | The callback is told 0 exactly for successful commands, if and only if the status is not code 0 of another type than generic. |
| NvmeTheorems.FailureTakenForSuccess | lib/nvme.c:109-122 | A concrete failure that is reported as success. |
| NvmeTheorems.PollsDrain | lib/nvme.c:656-709 | As many polls as there are unconsumed completions consume them all and give the queue back to the controller. |
| NvmeTheorems.FirstCompletionIsOwn | lib/nvme.c:282-297 | On an idle queue the first completion consumed after a synchronous command is its own, with its own argument and status. |
| NvmeInterleaving.SubmitIsAtomic | lib/nvme.c:567-611 | Wherever any number of controller steps happen inside a submission, between the claim of the request, the writing of the page list, of the callback and of the command, and the doorbell, the outcome is that of a submission made at once after them. |
| NvmeInterleaving.PartCommutes | lib/nvme.c:250-272 | Each of these writes commutes with each controller step. |
| NvmeInterleaving.PartsMakeSubmit | lib/nvme.c:567-611 | The five writes in turn are a submission. |
| NvmeInterleaving.PollIsAtomic | lib/nvme.c:675-701 | From the moment the phase shows a new entry, any number of controller steps leave that entry alone, and the poll gives the same state before and after them, although it reads phase, CID and status in turn. |
| NvmeTheorems.SubmitCommutesWithFetch | lib/nvme.c:567-611 | A fetch of an earlier command before a whole submission and after it give the same state. |
| NvmeTheorems.SubmitCommutesWithPost | lib/nvme.c:567-611 | Likewise for a completion. |
| NvmeInvariant.SubmitInv | lib/nvme.c:265-272 | Claiming a slot, writing its list page and enqueueing its command keeps the invariant, in particular every other outstanding command and list. |
| NvmeInvariant.PollInv | lib/nvme.c:681-702 | Detecting a completion and starting its callback keeps the invariant. |
| NvmeInvariant.DoneInv | lib/nvme.c:702-708 | So does the end of the innermost callback, in whatever state nested submissions and polls left the queue pair. |
| NvmeInvariant.NextInv | lib/nvme.c:236-709 | So does every step of driver, controller and callbacks. |
| NvmeInvariant.RunInv | lib/nvme.c:236-709 | So does every run. |
| NvmeInvariant.ReachableInv | lib/nvme.c:154-205 | Every state reachable from a fresh queue pair has the invariant. |
| NvmeInvariant.ReachableRun | lib/nvme.c:236-709 | Every run from a reachable state ends in a reachable state. |
| Prp.RoundTripIff | lib/nvme.c:592-607 | For one, two or more pages that fit the list page, the controller recovers exactly the page list from PRP1 and PRP2, without a chain entry, if and only if every entry is page aligned. |
| Prp.EntriesCoverIff | lib/nvme.c:579-587 | The page list never covers more than the scatter list, and covers all of it if and only if every segment is a whole number of pages. |
| Prp.ListAlignedIff | lib/nvme.c:579-587 | All entries are page aligned if and only if every segment that contributes one is. |
| Prp.ListMeansBytes | lib/nvme.c:579-587 | Byte m of entry e is byte e * page + m of the scatter list. |
| Prp.EntriesFit | lib/nvme.c:577-591 | The check on the total length keeps the list inside its page. |
| NvmeModel.ListInPage | lib/nvme.c:183-185 | An accepted list stays inside the list page of its own request. |
| NvmeQueuePair.QueuePair.constructor | lib/nvme.c:165-186 | A fresh queue pair over zeroed queues and list pages. |
| NvmeQueuePair.QueuePair.NumberRequests | lib/nvme.c:181-186 | The loop gives every request its own CID, from 1 on. |
| NvmeQueuePair.QueuePair.GetFreeReq | lib/nvme.c:236-248 | The loop is the round-robin search and marks just the slot it finds. |
| NvmeQueuePair.QueuePair.Kick | lib/nvme.c:250-263 | Rings the doorbell if anything waits for it and moves `need_kick` to `inflight`; its assertion on the tail holds. |
| NvmeQueuePair.QueuePair.SubmitCommand | lib/nvme.c:265-272 | Writes the command at the tail, moves it and rings the doorbell. |
| NvmeQueuePair.QueuePair.GetIovecSize | lib/nvme.c:523-533 | The loop computes the total length. |
| NvmeQueuePair.QueuePair.WritePageList | lib/nvme.c:579-588 | The nested loops write exactly the page list and nothing else. |
| NvmeQueuePair.QueuePair.BuildCommand | lib/nvme.c:558-610 | The switch on the number of entries and the command words. |
| NvmeQueuePair.QueuePair.SubmitIo | lib/nvme.c:567-611 | Succeeds if and only if some request is free, the total is a multiple of the page size and at most page/8 pages, and some segment is at least a page long, and is then the state machine's submission; where the source aborts, the request has been claimed and the controller has been told nothing. |
| NvmeQueuePair.QueuePair.SubmitAdmin | lib/nvme.c:282-293 | -16 if and only if no request is free, otherwise the submission. |
| NvmeQueuePair.QueuePair.TakeCompletion | lib/nvme.c:681-702 | The first half of a poll, including a completion with a bad CID. |
| NvmeQueuePair.QueuePair.FinishCompletion | lib/nvme.c:702-707 | The second half: the request becomes free and the head doorbell is written. |
| NvmeQueuePair.QueuePair.PollCq | lib/nvme.c:656-709 | Returns 1 if and only if a completion was unconsumed, leaves everything alone otherwise; it takes one completion, everything in between happens inside its callback, to any depth of nesting, and then it frees the request. |

## Left out

- Device registers, BAR and DMA mapping, configuration space, reset and ready polling, sysfs and file name parsing: operating-system plumbing with shallow properties. Memory barriers and torn MMIO writes have no meaning in a sequentially consistent model.
- Decoding of the transfer capability register in `ioat_channel_init` and the -EINVAL of both builds for a null channel: they only guard the parameters of the model.
- `propig_ioat_submit_copy` and `propig_ioat_submit_fill`: a build followed by a flush.
- Device misbehaviour: a halted engine is the return of -1 that changes nothing; a completion with a bad CID is in `NvmeModel.Poll` but unreachable by the controller's contract.
- Controllers with a larger minimum page size or doorbell stride: both are fixed at 0, as the driver effectively does.
- The queue pair number and process id checks of `nvme_submit_io`, and the loop of `nvme_poll` over queue pairs: the driver creates one I/O queue pair, and queue pairs share nothing.
- Termination of `nvme_admin_cmd_sync`, which spins until the controller answers; `NvmeTheorems.FirstCompletionIsOwn` says what it then returns.
- XOR and PQ descriptors and the remaining data layouts of the headers: not used by the code.
- NvmeQueuePair.QueuePair.SubmitIo: in builds without assertions the source would go on where the model stops.
- IoatChannel.Channel.ProcessEvents: requires that the completion word can be read (see above), because before that it is whatever memory held; `IoatChannel.Channel.Start` establishes it.
- `NvmeQueuePair.QueuePair.SubmitIo` and `PollCq` as methods run without the controller in between; `NvmeInterleaving.SubmitIsAtomic` and `PollIsAtomic` are why that loses nothing.
- The loops of the source are in methods of their own here (`IssueCopy`, `IssueFill`, `FinishBuild`, `RetireOne`, `WriteSegment`, `Enter`), which the source does not have.
