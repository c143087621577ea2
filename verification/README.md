# SpiNNMan: a verified model of its protocols

SpiNNMan talks to SpiNNaker machines over SCP, a request and response protocol
on top of UDP. This project models the parts of it that are protocols or
algorithms rather than plumbing, and proves what they promise for every input,
every run and every behaviour of the link.

| file | what it holds |
|---|---|
| `ScpPipeline.dfy` | the request pipeline as a state machine: live requests, retry budgets, the window, and a history of sends and callbacks |
| `ScpPipelineInvariants.dfy` | what every event and every call keeps |
| `ScpPipelineTheorems.dfy` | accounting over all runs, termination of `finish`, timeouts, cross-delivery, the window |
| `ScpPipelineLimits.dfy` | what each event tells the callbacks and puts on the wire, how much is received, and exactly when the pipeline falls short: requests left behind by `finish`, both callbacks for one request, sends that spin |
| `ScpPipelineObject.dfy` | the class with its six dictionaries and counters, each method tied to the state machine |
| `SequenceNumbers.dfy` | any number of pipelines drawing numbers from the one 16-bit counter |
| `ConnectionProcess.dfy` | a process with one pipeline for each connection |
| `ApplicationCopyRun.dfy` | the round-based broadcast of a binary down the parent links |
| `ReadIobuf.dfy`, `ReadIobufInvariants.dfy`, `ReadIobufProcess.dfy` | following and reassembling linked IOBUF blocks, responses in any order |
| `ExecuteLock.dfy` | the chip execute lock and the flood lock for any number of threads |
| `MemoryTransfer.dfy` | chunked writes and reads of memory, and the checksums |
| `Eieio.dfy` | the EIEIO data and command formats |
| `MachineLinks.dfy` | keeping links symmetric while chips and links are ignored |
| `TokenBucket.dfy` | the token bucket, in real arithmetic |
| `CorePolling.dfy` | waiting for cores to reach a state |
| `Common.dfy` | shared vocabulary |

What the link does is data: a finite sequence of events (a timeout, or a packet
with any sequence number, result code and payload), with flags that say which
sends, parses and callbacks raise. Loops of the source that may run for ever
return a status: `Starved` means that all the events of this run were used up
and the call was still receiving, `Spinning` that it was looping without
receiving. `StillPolling` and `Asleep` play the same part for polls and sleeps.
A statement about every event sequence is therefore a statement about every run.
Callbacks are names; that one was called, and with what, is an entry of the
history.

## What the proofs found

- A resend takes a credit before it sends. If that send raises, the credit is
  never given back: the request gets its error callback, and `finish` then
  receives for ever although no request is left. A first send that raises does
  the opposite: its request is in the table without a credit. `finish` ends,
  within a stated number of reads, exactly when the resends that raise among the
  events that it reads (of live requests with a retry left), with the credits
  leaked before and those of overwritten requests, are no more than the first
  sends that raised. So when no first send raised, a single such resend is enough
  to hang it.
- `finish` can be relied on to leave no request behind exactly when there is
  none, or when no more first sends raised than credits leaked or were
  overwritten.
- The next sequence number is in use by a live request exactly when that request
  is a multiple of 65536 allocations old; sending under it overwrites the request.
- A send loops without receiving exactly when `intermediate_channel_waits` is
  not below `n_channels` and the window is full.
- A request gets both of its callbacks exactly when its response is read and the
  response callback raises; a resent request has had none, and in every other
  case it gets one.
- The array writer of memory returns the checksum of all of its data, whatever
  part of it was written, and only for a `bytearray`: numpy takes a `bytes` object
  for one string rather than for its bytes, so that asking for a checksum raises
  after the packets have been sent. For a part that starts and ends on word
  boundaries it is the sum of what was written exactly when the words that were
  not written add up to zero modulo 2^32; for any other part the condition also
  counts the bytes of the part at the places they have in the data.
- With an offset that counts from the end of the data, the array writer writes
  the bytes wanted exactly when they stop before the end. Up to the very end, its
  last packet is empty.
- The reader-based writer never returns when the reader ends early. Over reads
  that each give something it returns exactly when there is as much as is wanted.
  With a checksum it raises exactly when some read is not whole words; when reads
  give all that is asked of them, that is when the length is not whole words.
- The IOBUF reader raises at the first core whose text is not ASCII, after the
  texts of the cores before it.
- The token bucket does not refresh its timestamp while it is full. A window can
  therefore grant up to two capacities; the usual bound of one holds in every
  window exactly when the bucket is not full, or was looked at just now, or the
  capacity or the rate is zero.
- Waiting for cores relies on a count of all cores that run the application. It
  is sound exactly when, for every listed core, fewer of the other running cores
  than are listed exist; that holds when only listed cores run the application.
  If the target states are given as an iterator, the final check finds it used up
  and reports every listed core, even if all of them are ready.
- An EIEIO message whose header starts with a count other than zero cannot be
  read back, and its `size` is not its length. One that can be encoded is taken
  for a command exactly when it has no prefix and a tag from 64 to 127.

## Model

| member | source | states |
|---|---|---|
| `ScpPipelineTheorems.EveryRunAccounts` | spinnman/connections/scp_request_pipeline.py:160-362 | over every run, every request is live, overwritten by a reused number, or settled by exactly one outcome (two only if its response callback raised); retries left plus reasons recorded are `n_retries`; it is sent at most `n_retries + 1` times as the same bytes; the in-progress count is live requests plus leaked credits plus overwritten ones less first sends that raised |
| `ScpPipelineTheorems.ReachableKeepsInv` | spinnman/connections/scp_request_pipeline.py:160-362 | the invariant behind this holds after any calls with any events |
| `ScpPipelineInvariants.EventKeepsInv` | spinnman/connections/scp_request_pipeline.py:263-347 | any packet or timeout keeps the invariant |
| `ScpPipelineInvariants.ResponseKeepsInv` | spinnman/connections/scp_request_pipeline.py:263-303 | handling a response, retried, failed, parsed or unknown, keeps it |
| `ScpPipelineInvariants.ExpireAllKeepsInv` | spinnman/connections/scp_request_pipeline.py:305-321 | the timeout handler's loop keeps it at every step |
| `ScpPipelineInvariants.SendKeepsInv` | spinnman/connections/scp_request_pipeline.py:160-207 | so does `send_request`, whether or not its send raises |
| `ScpPipelineTheorems.FinishSettlesEverything` | spinnman/connections/scp_request_pipeline.py:209-215 | when `finish` returns, at most as many requests are unanswered as first sends raised; with none raised every request has had its outcome |
| `ScpPipelineLimits.FinishLeavesNothingIff` | spinnman/connections/scp_request_pipeline.py:204-215 | whatever the link does, `finish` returns only with no request left, if and only if there is none or no more first sends raised than credits leaked or were overwritten |
| `ScpPipelineLimits.OneRaisingSendIsLeftBehind` | spinnman/connections/scp_request_pipeline.py:204-215 | a concrete run: the only send raises, and `finish` returns at once with its request in the table and no callback made |
| `ScpPipelineLimits.CallbacksOfAResponse` | spinnman/connections/scp_request_pipeline.py:270-303 | a response makes no callback if its request is resent, both if it is read and the response callback raises, and in every other case one |
| `ScpPipelineLimits.CallbacksOfATimeout` | spinnman/connections/scp_request_pipeline.py:305-321 | a timeout makes one error callback for each request that it does not resend, and none for the others |
| `ScpPipelineLimits.WhatAReadResponseTells` | spinnman/connections/scp_request_pipeline.py:289-303 | a response that is read drops its request and makes exactly these callbacks: the callback of the request, with the payload, if it was parsed; the error callback alone if it was not; first the one and then the other if the callback raises |
| `ScpPipelineLimits.WhatAFailedRetryTells` | spinnman/connections/scp_request_pipeline.py:274-287 | a response that is neither read nor resent drops its request and makes one error callback, with the error of the send if there were retries left, and else with all reasons, the code of the response last |
| `ScpPipelineLimits.WhatAResendRecords` | spinnman/connections/scp_request_pipeline.py:341-347 | a resend makes no callback, spends one retry, notes the code, sends the bytes of the request under the same number once more, and changes nothing of any other request |
| `ScpPipelineLimits.WhatATimeoutTells` | spinnman/connections/scp_request_pipeline.py:305-347 | for each live request of any number: a timeout with a retry left sends its bytes once more and makes a callback only if that raises; one without makes one error callback, a timeout error exactly if all reasons so far are timeouts |
| `ScpPipelineLimits.WhatASendRecords` | spinnman/connections/scp_request_pipeline.py:191-207 | a send, whether or not it raises, leaves its request live with all of its retries, no reasons and no callback, and its bytes on the wire once |
| `ScpPipelineLimits.NumberIsInTheBytes` | spinnman/messages/scp/scp_request_header.py:71-77 | the sequence number can be read back from the bytes of a request, low byte first, and the rest of them does not depend on it |
| `ScpPipelineLimits.RetrieveReads` | spinnman/connections/scp_request_pipeline.py:349-362 | receiving takes exactly the events that are needed to come down to the threshold, or all of them if none are enough |
| `ScpPipelineLimits.SendReceivesWhatItNeeds` | spinnman/connections/scp_request_pipeline.py:177-207 | a send with room receives nothing; one with a full window takes exactly the events that bring it down to the waits |
| `ScpPipelineLimits.FinishReceivesWhatItNeeds` | spinnman/connections/scp_request_pipeline.py:209-215 | `finish` takes exactly the events up to the first after which nothing is in progress |
| `ScpPipelineTheorems.EventSpends` | spinnman/connections/scp_request_pipeline.py:263-347 | every event that concerns a live request strictly lowers the budget of retries; any other event changes no request |
| `ScpPipelineTheorems.EffectiveReadsAreBounded` | spinnman/connections/scp_request_pipeline.py:349-362 | a retrieve reads at most the budget of effective events |
| `ScpPipelineTheorems.BudgetIsBounded` | spinnman/connections/scp_request_pipeline.py:323-347 | the budget is at most live requests times `n_retries + 1` |
| `ScpPipelineTheorems.FinishEndsUnlessSendsRaise` | spinnman/connections/scp_request_pipeline.py:209-215 | in every reachable state: beyond the packets that answer nothing, `finish` ends within live requests times `n_retries + 1` reads if and only if the credits leaked so far, the resends that raise because of the events it reads, and the overwritten requests are together no more than the first sends that raised |
| `ScpPipelineTheorems.RetrieveLeaks` | spinnman/connections/scp_request_pipeline.py:341-346 | the credits that leak are exactly those of the resends, of live requests with a retry left, whose send raises |
| `ScpPipelineTheorems.FinishEnds` | spinnman/connections/scp_request_pipeline.py:209-215 | while resends work it does end, unless credits were missing before; when no first send raised, every request has then had its outcome |
| `ScpPipelineTheorems.LeakStarvesFinish` | spinnman/connections/scp_request_pipeline.py:341-346 | with a leaked credit no events at all make `finish` return |
| `ScpPipelineTheorems.RaisingSendHangsFinish` | spinnman/connections/scp_request_pipeline.py:341-346 | once more resends have raised than first sends did, no further events make `finish` return |
| `ScpPipelineTheorems.OneRaisingResendHangs` | spinnman/connections/scp_request_pipeline.py:305-321 | a concrete run that shows it: one request, one timeout, one raising resend |
| `ScpPipelineTheorems.TimeoutReachesEveryRequest` | spinnman/connections/scp_request_pipeline.py:305-347 | a timeout retries each live request that has a retry left and drops each other one, whatever their order |
| `ScpPipelineTheorems.ResponseReachesOnlyItsIssue` | spinnman/connections/scp_request_pipeline.py:263-303 | a response changes the outcome of no request but the live one with its number, and hands that one its own payload; a packet that matches no live request changes nothing |
| `ScpPipelineTheorems.SendKeepsWindow` | spinnman/connections/scp_request_pipeline.py:177-207 | with waits below the channels, at most `n_channels` are in progress after a send, and no send spins |
| `ScpPipelineTheorems.MeasureFixesTheWindow` | spinnman/connections/scp_request_pipeline.py:177-184 | the window is measured once: 8 more than what is in flight, but at least 12, with waits 8 below it |
| `ScpPipelineLimits.SendSpinsIff` | spinnman/connections/scp_request_pipeline.py:186-190 | inside its window, a send loops without receiving if and only if waits are not below channels and the window is full |
| `ScpPipelineLimits.WindowHoldsOverRuns` | spinnman/connections/scp_request_pipeline.py:177-215 | over every run, however its calls end, at most `n_channels` are in progress once it is given or measured |
| `ScpPipelineLimits.SecondSendSpins` | spinnman/connections/scp_request_pipeline.py:186-190 | a concrete case: one channel, one wait, and the second send spins |
| `ScpPipelineTheorems.SendSpinsOnlyWhenMisconfigured` | spinnman/connections/scp_request_pipeline.py:186-190 | in any state a send with room in the window never spins, nor one with waits below channels; a full window within the waits spins at once |
| `SequenceNumbers.FreshNumbersAreUnique` | spinnman/connections/scp_request_pipeline.py:144-158 | while fewer than 65536 numbers are issued in the lifetime of a request, no two live requests of any pipelines share a number and the next number is free |
| `SequenceNumbers.NextNumberIsLiveIff` | spinnman/connections/scp_request_pipeline.py:192-197 | the next number is held by a live request of a pipeline if and only if one of its live requests is a multiple of 65536 allocations old |
| `SequenceNumbers.LateResponseIsIgnored` | spinnman/connections/scp_request_pipeline.py:263-271 | a late or duplicate response to a request that is gone changes no pipeline until its number is issued again |
| `SequenceNumbers.StepKeepsWorld` | spinnman/connections/scp_request_pipeline.py:144-207 | numbers stay tied to the order of issue over all pipelines |
| `SequenceNumbers.FreshRunsLoseNothing` | spinnman/connections/scp_request_pipeline.py:192-202 | over any fresh run of any pipelines no table entry is overwritten |
| `ScpPipelineObject.SequenceCounter.GetNext` | spinnman/connections/scp_request_pipeline.py:144-158 | returns the number and advances the counter modulo 65536 |
| `ScpPipelineObject.SCPRequestPipeLine.constructor` | spinnman/connections/scp_request_pipeline.py:80-142 | starts in the initial state; the waits are those given, or 8 below the channels given but not below zero |
| `ScpPipelineObject.SCPRequestPipeLine.SendRequest` | spinnman/connections/scp_request_pipeline.py:160-207 | six dictionaries and counters end as the state machine's send says, and the counter moves only if a number was taken |
| `ScpPipelineObject.SCPRequestPipeLine.WaitForChannel` | spinnman/connections/scp_request_pipeline.py:186-190 | the loop for a free channel is the state machine's |
| `ScpPipelineObject.SCPRequestPipeLine.Register` | spinnman/connections/scp_request_pipeline.py:195-207 | entering a request in all six dictionaries and sending it |
| `ScpPipelineObject.SCPRequestPipeLine.Finish` | spinnman/connections/scp_request_pipeline.py:209-215 | is the state machine's finish |
| `ScpPipelineObject.SCPRequestPipeLine.RemoveRecord` | spinnman/connections/scp_request_pipeline.py:254-261 | removes the number from all six dictionaries, whose keys agree |
| `ScpPipelineObject.SCPRequestPipeLine.SingleRetrieve` | spinnman/connections/scp_request_pipeline.py:263-303 | handles a response as the state machine does |
| `ScpPipelineObject.SCPRequestPipeLine.ConstructResponse` | spinnman/connections/scp_request_pipeline.py:289-303 | parses, calls back, reports what raised, and drops the record |
| `ScpPipelineObject.SCPRequestPipeLine.HandleReceiveTimeout` | spinnman/connections/scp_request_pipeline.py:305-321 | resends all and removes afterwards, which is the same as handling each request at once |
| `ScpPipelineObject.SCPRequestPipeLine.ResendAll` | spinnman/connections/scp_request_pipeline.py:308-318 | the loop over the requests, with the failed ones still in the dictionaries |
| `ScpPipelineObject.SCPRequestPipeLine.TryResend` | spinnman/connections/scp_request_pipeline.py:323-347 | spends a retry and a credit before it sends, or raises with all the reasons, as a timeout exactly when all of them are timeouts |
| `ScpPipelineObject.SCPRequestPipeLine.DoRetrieve` | spinnman/connections/scp_request_pipeline.py:349-362 | receives until at most the given number are in progress |
| `ConnectionProcess.NoExceptionsMeansDelivered` | spinnman/processes/abstract_multi_connection_process.py:118-124 | a pipeline with no request left gave the process no error if and only if each request without an error callback of its own had its response handed to its callback, once, and each other request had its outcome |
| `ConnectionProcess.Process.SendRequest` | spinnman/processes/abstract_multi_connection_process.py:102-116 | makes the pipeline of a connection on first use and sends over it with the next number, errors going to the process unless the caller has an error callback of its own; the other pipelines are left alone, and a raising send is passed on |
| `ConnectionProcess.Process.Finish` | spinnman/processes/abstract_multi_connection_process.py:134-136 | finishes the pipelines in the order of their first use, each with what its connection brings, up to the first that goes on receiving |
| `ConnectionProcess.Process.CollectResponses` | spinnman/processes/abstract_multi_connection_process.py:138-163 | receives for ever if and only if some pipeline does on what its connection brings, which none does that is brought enough while its resends work and no credit is missing; otherwise each pipeline is what `finish` makes of what its connection brought. Leaves normally only if there was no error and, unless first sends raised, every request of every pipeline was delivered; raises the one error there was, or all of them, and only if some request was not delivered |
| `ConnectionProcess.Process.CheckForError` | spinnman/processes/abstract_multi_connection_process.py:174-209 | raises nothing if no request left an error, the request and exception of the only one that did, or a group of exactly those that did, each once |
| `ApplicationCopyRun.ComputeParentChips` | spinnman/processes/application_copy_run_process.py:68-82 | groups the chips by parent, in machine order |
| `ApplicationCopyRun.PickChild` | spinnman/processes/application_copy_run_process.py:49-65 | picks a child still to do that its board's off-board copy allows, and none only if there is none |
| `ApplicationCopyRun.ScanBoard` | spinnman/processes/application_copy_run_process.py:44-65 | extends a round by the copies out of one board |
| `ApplicationCopyRun.GetNextChips` | spinnman/processes/application_copy_run_process.py:31-65 | a round copies only from done chips, no chip is copied to or from twice, at most one copy leaves a board, and a chip with children left is used unless that limit stops it |
| `ApplicationCopyRun.CopyRunProcess.CopyTo` | spinnman/processes/application_copy_run_process.py:125-135 | one request, which names the chip, its parent link and its cores, and the size, application, checksum and wait of the job; the chip is then done; a size that is not whole words raises before either |
| `ApplicationCopyRun.CopyRunProcess.RunRound` | spinnman/processes/application_copy_run_process.py:122-132 | one request for each chip of the round, in order |
| `ApplicationCopyRun.CopyRunProcess.Run` | spinnman/processes/application_copy_run_process.py:106-137 | the rounds end; without an error exactly the chips whose parent chain reaches the boot chip, but not that chip, were sent one request each, in the order of the rounds, which names the chip, its parent link, its cores and what the job says; a size that is not whole words sends none |
| `ApplicationCopyRun.RoundsFacts` | spinnman/processes/application_copy_run_process.py:118-137 | over all rounds no chip is copied to twice, the boot chip never, and each chip copied to has a chain to the boot chip |
| `ApplicationCopyRun.EmptyRoundMeansClosed` | spinnman/processes/application_copy_run_process.py:120-137 | an empty round means that every chip with a chain to the boot chip is done |
| `ApplicationCopyRun.EffectsOfARound` | spinnman/processes/application_copy_run_process.py:86-97 | requests that read over the parent link of their chip may take effect in any order, repeatedly and with late ones of earlier rounds among them, and still copy the right binary |
| `ApplicationCopyRun.LastRound` | spinnman/processes/application_copy_run_process.py:125-135 | what was sent for the rounds does read over the parent links of its chips, and each chip of the last round is asked |
| `ApplicationCopyRun.BroadcastIsSafe` | spinnman/processes/application_copy_run_process.py:86-97 | when each request that was sent copies over the link that it names, every chip that is done at the end of a round holds the boot chip's binary |
| `ReadIobufProcess.ReadIOBufProcess.ReadIobuf` | spinnman/processes/read_iobuf_process.py:187-219 | ends for every memory of finite chains and every order of responses; each core's text is the payloads of its blocks in chain order, decoded, up to the first core whose text is not ASCII, where it raises |
| `ReadIobufProcess.ReadTwoBlocks` | spinnman/processes/read_iobuf_process.py:111-219 | a concrete machine, byte by byte: a core with blocks at 0x110 and 0x220 found through its pointer at 0xe50071d8, and a core with none; the texts are those of the two |
| `ReadIobufProcess.TwoChainsAreThere` | spinnman/processes/read_iobuf_process.py:111-158 | the bytes of that machine are the chains that are read |
| `ReadIobuf.WordIsLittleEndian` | spinnman/processes/read_iobuf_process.py:71-73 | at any place of any data a word is read as a number exactly where the bytes of the number are, the lowest first |
| `ReadIobufProcess.ReadIOBufProcess.DecodeBuffers` | spinnman/processes/read_iobuf_process.py:216-219 | decodes the buffers one by one, which succeeds exactly when the whole text is ASCII |
| `ReadIobufProcess.ReadIOBufProcess.RunRound` | spinnman/processes/read_iobuf_process.py:203-211 | a round drains both worklists, responses arriving meanwhile, and lowers the work left |
| `ReadIobufProcess.ReadIOBufProcess.RequestAddresses` | spinnman/processes/read_iobuf_process.py:195-200 | asks each core for its first block |
| `ReadIobufProcess.ReadIOBufProcess.HandleAddressResponse` | spinnman/processes/read_iobuf_process.py:119-126 | notes the first block, if any, with the size of its first read |
| `ReadIobufProcess.ReadIOBufProcess.HandleExtraResponse` | spinnman/processes/read_iobuf_process.py:134-139 | stores a tail at its place in its buffer |
| `ReadIobufProcess.ReadIOBufProcess.HandleFirstResponse` | spinnman/processes/read_iobuf_process.py:147-185 | stores the start of a block, notes its tails of at most 256 bytes and the next block |
| `ReadIobufInvariants.DeliverKeepsInv` | spinnman/processes/read_iobuf_process.py:119-185 | any response keeps: each payload byte of a discovered block is stored or covered by exactly one pending or outstanding tail |
| `ReadIobufInvariants.IssueKeepsInv` | spinnman/processes/read_iobuf_process.py:203-211 | so does sending what a worklist holds |
| `ReadIobufInvariants.DeliverSpendsWork` | spinnman/processes/read_iobuf_process.py:119-185 | any response lowers the work left |
| `ReadIobufInvariants.IssueSpendsWork` | spinnman/processes/read_iobuf_process.py:203-211 | so does any send |
| `ReadIobufInvariants.NothingLeftMeansComplete` | spinnman/processes/read_iobuf_process.py:213-219 | with nothing left to send or receive, every core has its whole text |
| `ExecuteLock.StepKeepsInv` | spinnman/extended/extended_transceiver.py:148-166 | every action of every thread keeps the lock invariant |
| `ExecuteLock.MutualExclusion` | spinnman/transceiver/base_transceiver.py:827-837 | in every reachable state a flood overlaps no execute and no other flood, a chip has one execute, the counter is exact, and a sleeping flood has a wake-up coming |
| `ExecuteLock.NoDeadlock` | spinnman/extended/extended_transceiver.py:148-166 | whenever some thread is in an operation, some thread can take a step |
| `ExecuteLock.EveryOperationCompletes` | spinnman/transceiver/base_transceiver.py:827-837 | with no new operations every run is finite, and one that can go no further has left every operation |
| `ExecuteLock.EveryOperationIsDone` | spinnman/transceiver/base_transceiver.py:827-837 | over every run a thread has flooded as often as it was asked to, and executed on each chip as often as it was asked to on that chip, but for one operation that is waiting for its locks |
| `ExecuteLock.RunsThatEndHaveDoneAll` | spinnman/extended/extended_transceiver.py:148-166 | in a run that can go no further, exactly as often |
| `MemoryTransfer.WriteFromBytearray` | spinnman/processes/write_memory_process.py:125-147 | for any offset, the packets of at most 256 bytes that the slices make; from an offset in the data, or from its end if they stop before it, they hold the slice consecutively; and the sum of all the data of a bytearray, which cannot be had of a bytes object |
| `MemoryTransfer.NegativeOffsetWorksIff` | spinnman/processes/write_memory_process.py:132-142 | from an offset that counts from the end, the packets hold the bytes wanted if and only if those stop before the end |
| `MemoryTransfer.LastBytesAreNotWritten` | spinnman/processes/write_memory_process.py:132-142 | a concrete case: the last four bytes of the data make one empty packet |
| `MemoryTransfer.WriteFromReader` | spinnman/processes/write_memory_process.py:149-173 | the same for what a reader gave in whatever pieces; a normal return means that all bytes were read, and the sum is theirs; how it ends is decided by what there is to read and how much each read gives: it never returns from a reader that ends early, and always comes to an end with one that gives enough |
| `MemoryTransfer.WriterReturnsIff` | spinnman/processes/write_memory_process.py:156-166 | over enough reads that each give something, it returns if and only if there is as much as is wanted |
| `MemoryTransfer.WriterRaisesIff` | spinnman/processes/write_memory_process.py:168-171 | with a sum, it raises if and only if some piece is not whole words |
| `MemoryTransfer.WholeReadsRaiseIff` | spinnman/processes/write_memory_process.py:156-171 | when reads give all that is asked of them, if and only if what is read is not whole words in all |
| `MemoryTransfer.ThreeBytesOfFour` | spinnman/processes/write_memory_process.py:156-166 | a concrete case: of four bytes wanted the reader has three, and the writer is still in its loop after any number of reads |
| `MemoryTransfer.WritesLandExactly` | spinnman/processes/write_memory_process.py:125-142 | each write taking effect once or more, in any order, memory holds the data at its place and is otherwise unchanged |
| `MemoryTransfer.ReadMemoryProcess.ReadMemory` | spinnman/processes/read_memory_process.py:76-94 | for every length and order of responses, returns exactly what memory holds |
| `MemoryTransfer.ReadMemoryProcess.HandleResponse` | spinnman/processes/read_memory_process.py:43-45 | fills its part of the view and no other |
| `MemoryTransfer.WriteThenRead` | spinnman/processes/write_memory_process.py:125-142 | reading back the range gives what was written |
| `MemoryTransfer.RunningSumIsOneShot` | spinnman/processes/write_memory_process.py:168-171 | masking after every chunk is the one sum modulo 2^32, however the data is cut |
| `MemoryTransfer.WritersAgree` | spinnman/processes/write_memory_process.py:145-173 | both writers return the same sum for a bytearray written whole |
| `MemoryTransfer.ArraySumIsOfTheSliceIff` | spinnman/processes/write_memory_process.py:143-147 | for any part of the data: the array writer's sum is that of the part exactly when the bytes outside, and the shift of those inside from their places in a word, sum to zero |
| `MemoryTransfer.ArraySumIsOfTheWordsIff` | spinnman/processes/write_memory_process.py:143-147 | for a part of whole words, exactly when the words outside sum to zero |
| `MemoryTransfer.ArraySumOfAPart` | spinnman/processes/write_memory_process.py:143-147 | a concrete case where it is not |
| `Eieio.HeaderComesBackIff` | spinnman/messages/eieio/data_messages/eieio_data_header.py:190-298 | an encodable header comes back from its bytes exactly when its tag has two bits and it has the default prefix type if no prefix |
| `Eieio.HeaderGoesBack` | spinnman/messages/eieio/data_messages/eieio_data_header.py:241-298 | a header read from any data encodes to the bytes it was read from |
| `Eieio.FlagsAreFields` | spinnman/messages/eieio/data_messages/eieio_data_header.py:198-220 | the fields or-ed into the flag byte never overlap |
| `Eieio.ElementComesBack` | spinnman/messages/eieio/data_messages/key_payload_data_element.py:67-80 | an encoded element comes back with prefix and payload base or-ed in |
| `Eieio.ElementGoesBack` | spinnman/messages/eieio/data_messages/key_data_element.py:43-56 | an element read without prefix and payload base encodes to the bytes it was read from |
| `Eieio.UpperPrefixMakesAWord` | spinnman/messages/eieio/data_messages/eieio_data_message.py:256-260 | a 16-bit key under an upper prefix is the word made of both |
| `Eieio.BitsOfAnElement` | spinnman/messages/eieio/data_messages/eieio_data_message.py:245-268 | bit by bit: a key read has the bits of the key and those of the prefix in its half of the word; a payload is read if the element or the header has one, with the bits of both |
| `Eieio.ElementsComeBack` | spinnman/messages/eieio/data_messages/eieio_data_message.py:226-268 | reading from any element on gives the rest of the elements |
| `Eieio.MessageComesBackIff` | spinnman/messages/eieio/data_messages/eieio_data_message.py:149-273 | the header comes back; all elements do, and the length is `size`, exactly when the count started at zero |
| `Eieio.MaxNElementsIsTheLimit` | spinnman/messages/eieio/data_messages/eieio_data_message.py:130-139 | at most `max_n_elements` elements means at most 256 bytes, and conversely; the count then fits its byte |
| `Eieio.CommandComesBack` | spinnman/messages/eieio/command_messages/eieio_command_header.py:54-81 | every command comes back, and is taken for a command |
| `Eieio.ReceiverAndParserAgree` | spinnman/connections/udp_packet_connections/eieio_connection.py:58-62 | on any data the receiver's test says command exactly when the data parser refuses it as one |
| `Eieio.MessageIsCommandIff` | spinnman/connections/udp_packet_connections/eieio_connection.py:58-62 | an encoded data message is taken for a command exactly when it has no prefix and a tag from 64 to 127, so never with a tag of two bits |
| `Eieio.EIEIODataHeader.constructor` | spinnman/messages/eieio/data_messages/eieio_data_header.py:45-74 | holds what it is given |
| `Eieio.EIEIODataHeader.IncrementCount` | spinnman/messages/eieio/data_messages/eieio_data_header.py:178-182 | adds one to the count and changes nothing else |
| `Eieio.EIEIODataMessage.constructor` | spinnman/messages/eieio/data_messages/eieio_data_message.py:45-60 | a message with nothing added and nothing read |
| `Eieio.EIEIODataMessage.Create` | spinnman/messages/eieio/data_messages/eieio_data_message.py:62-90 | a timestamp replaces the payload prefix and marks payloads as times |
| `Eieio.EIEIODataMessage.AddElement` | spinnman/messages/eieio/data_messages/eieio_data_message.py:198-214 | adds an element that fits a writable message, and else says why not and changes nothing |
| `Eieio.EIEIODataMessage.AddKey` | spinnman/messages/eieio/data_messages/eieio_data_message.py:183-196 | succeeds exactly for keys in range on a writable message of a type without payloads |
| `Eieio.EIEIODataMessage.AddKeyAndPayload` | spinnman/messages/eieio/data_messages/eieio_data_message.py:161-181 | likewise for keys and payloads |
| `Eieio.EIEIODataMessage.NextElement` | spinnman/messages/eieio/data_messages/eieio_data_message.py:226-268 | takes the first of the remaining elements, none past the count, and raises past the data |
| `Eieio.EIEIODataMessage.Bytestring` | spinnman/messages/eieio/data_messages/eieio_data_message.py:270-273 | is the encoding of the header and of all elements added |
| `Eieio.ReadEieioDataMessage` | spinnman/messages/eieio/create_eieio_data.py:19-32 | parses the header and reads elements from behind it |
| `MachineLinks.IgnoreChipsExactly` | spinnman/processes/get_machine_process.py:380-416 | ignoring chips takes exactly the links that lead to one of them, and keeps links symmetric |
| `MachineLinks.KnownAreThoseThatAnswer` | spinnman/processes/get_machine_process.py:394-400 | the chips that are ignored are those of the ignores that a chip answers to |
| `MachineLinks.KnownKeepsOrder` | spinnman/processes/get_machine_process.py:394-400 | in the order of the ignores, and each as often |
| `MachineLinks.IgnoreLinksExactly` | spinnman/processes/get_machine_process.py:305-352 | a link goes exactly when it or its inverse is ignored, and links stay symmetric |
| `MachineLinks.GridIsUndone` | spinnman/processes/get_machine_process.py:317-318 | what the symmetry results ask of the machine holds on a grid of any size, with wrap-arounds either way, both, or neither |
| `MachineLinks.RoutersAreSymmetric` | spinnman/processes/get_machine_process.py:151-172 | after any ignored chips and links, the routers hold exactly the remaining links between known chips, each with its inverse |
| `MachineLinks.GetMachineProcess.PreprocessIgnoreChips` | spinnman/processes/get_machine_process.py:380-416 | the loop over the ignored chips, in place |
| `MachineLinks.GetMachineProcess.IgnoreOneChip` | spinnman/processes/get_machine_process.py:401-416 | pops a chip and removes the inverse of each of its links |
| `MachineLinks.GetMachineProcess.ProcessIgnoreLinks` | spinnman/processes/get_machine_process.py:319-349 | the loop over the ignored links, in place |
| `MachineLinks.GetMachineProcess.MakeRouter` | spinnman/processes/get_machine_process.py:151-172 | keeps the links that lead to known chips |
| `TokenBucket.SinceCreation` | spinnman/connections/token_bucket.py:30-79 | tokens granted since a bucket was made are at most capacity plus rate times the time |
| `TokenBucket.WindowBound` | spinnman/connections/token_bucket.py:67-79 | in any window at most capacity, plus what a long full bucket can spare (at most another capacity), plus rate times the window |
| `TokenBucket.OneCapacityBoundIff` | spinnman/connections/token_bucket.py:67-79 | the bound of one capacity holds for all continuations exactly when there is nothing to spare |
| `TokenBucket.TokenBucket.constructor` | spinnman/connections/token_bucket.py:30-39 | a new bucket is full |
| `TokenBucket.TokenBucket.Tokens` | spinnman/connections/token_bucket.py:67-79 | refills at the rate up to the capacity, unless the bucket is full, and grants nothing |
| `TokenBucket.TokenBucket.SleepOff` | spinnman/connections/token_bucket.py:57-60 | sleeps for as long as the deficit takes to arrive, after which it is there if the bucket can hold it |
| `TokenBucket.TokenBucket.Consume` | spinnman/connections/token_bucket.py:41-65 | grants all or nothing; with positive rate and a request within capacity a blocking call succeeds after at most one sleep, no longer than the deficit takes to arrive; more than the capacity is never granted; blocking without a positive rate raises if it would have to wait |
| `CorePolling.Transceiver.WaitForCoresToBeInState` | spinnman/transceiver/base_transceiver.py:1033-1112 | a normal return means every listed core is in a target state; a raise names a non-empty set of cores that were in an error state or, only with a timeout and after it, in no target state; target states that cannot be gone through twice make a wait whose time is up name every listed core; ready cores end the wait, failed ones make it raise |
| `CorePolling.Transceiver.CountReady` | spinnman/transceiver/base_transceiver.py:1049-1053 | counting state by state counts each core once, if cores stay where they are |
| `CorePolling.Transceiver.GetCoreStateCount` | spinnman/transceiver/base_transceiver.py:815-825 | counts running cores, each at an instant of its own |
| `CorePolling.Transceiver.GetCpuInfos` | spinnman/transceiver/base_transceiver.py:702-728 | the listed cores in the states, or not in them, each at an instant of its own |
| `CorePolling.OnlyListedCoresLeaveNoSlack` | spinnman/transceiver/transceiver.py:593-611 | the condition for soundness holds when only listed cores run the application |
| `CorePolling.SlackFoolsTheWait` | spinnman/transceiver/base_transceiver.py:1043-1053 | without the condition, a wait that returns although a listed core never got there |
| `CorePolling.IteratorOfStatesRaises` | spinnman/transceiver/base_transceiver.py:1098-1109 | a concrete case: all cores are ready throughout, the states come as an iterator, and all cores are reported |

## Left out

- Sockets, UDP, proxying, boot, power, logging, reports, configuration and progress bars: plumbing without a protocol of its own.
- SCP request and response classes: a request is the bytes around its sequence number, and whether a response can be parsed is an input.
- Exceptions of the receive call other than its timeout, callbacks that call the pipeline again, and error callbacks that raise.
- `time.sleep` and the clock, except in the token bucket, where any clock that does not run backwards is allowed and a sleep is not cut short; rounding of floating point is not modelled.
- How connections are chosen: the connection of each request is an input. The pipelines of `ConnectionProcess` are values of the state machine, not objects, and its lists of errors are read off their histories, in the order of the requests rather than of the errors.
- That a response means that its request took effect on the machine is assumed by the transfer, broadcast and IOBUF modules, and so are responses of the length that was asked for.
- `ApplicationCopyRun.CopyRunProcess.Run`: assumes that the boot chip is its own nearest Ethernet chip and that a parent link is a link of its chip's router, and does not model how the copy request packs its arguments into three words.
- Re-entrance of the locks by one thread, exceptions inside `write_memory` during a flood, and fairness: nothing in the source keeps a flood from waiting for ever while new executes start.
- How an ignore with an IP address is resolved to a chip: it is an input, with `None` for an ignore that no chip answers to.
- Repairing the machine after the routers are made, and leaving out chips with a wrong IP address: X and Y of a chip and its links are all that is modelled.
- `TokenBucket.SinceCreation`: says nothing of a negative capacity or rate, nor of negative requests, which add tokens; the object handles them, but no bound is stated for them.
- `min_packet_length` of EIEIO messages, which no proof needs, and command messages beyond their header.
- numpy and the host: the word view of the checksums is that of a little-endian host, and that a `bytes` object cannot be summed is taken from numpy's rules for strings.
- Flood-fill data, routing entries, tags, SDRAM allocation, heaps, P2P tables and diagnostics: field decoding without harder properties.
