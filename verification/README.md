# Remote procedure calls over RDMA: host, software accelerator and what they keep

An application hands memory regions to a host library, which runs a function on an accelerator by
RDMA writes alone. The host and the software accelerator first exchange one message each, in which
they announce their regions (the setup). A call is then a linked chain of writes of the marked input
regions, the last of which carries an immediate word with the function code and three user bytes;
the accelerator runs its kernel and writes the output regions back, again with an immediate on the
last write. Both sides are driven by work completions that arrive in varying orders.

This project models both sides and proves properties of them jointly.

* `Bytes`, `Wire`, `Messages`: the byte layout of the setup messages, built in place in the message
  buffer.
* `Context`, `Chain`, `Host`, `Server`: the communication context as a class whose fields and tables
  the methods update in place. Each method is proved against a function on the value of the context
  (`View`), which is also what the joint machine uses.
* `Setup`: the exchange of the two messages through both handlers.
* `Machine`: host, accelerator and a reliable in-order connection as one transition system, with
  posted packets, unacknowledged packets, completion queues and posted receives on each side, the
  application acting between calls, and the worker's program counter.
* `Invariant`, `HostSteps`, `NetSteps`, `PollSteps`, `ServerSteps`, `Runs`: the joint invariant, one
  proof per step, and what follows for every run. `Progress` shows that a call ends after boundedly
  many steps and what can halt it, `CallResponse` what it tells the application, and `Creation` that
  creating a handle leads to where the runs start.
* `Shadow`, `Refinement`: the plain remote call on two memories, and the proof that every run refines
  it. `Cache` and `Kernels` use the refinement for single-send regions and for kernels that are
  called again and again.
* `CompletionOrder`, `HandlerOutcomes`, `Settings`, `ImmediateWords`: the host's handler under every
  order of completions, what each handler accepts and leaves alone, the host's setters in every
  order, and the bits of the immediates.
* `Notify`, `ConnectionSlots`: two small concurrent protocols, completion notification and the stack
  of free connection slots.
* `AddressLayout`, `RegionTables`, `ParameterMerge`, `JobSpec`, `HandleCreation`: address layout, the
  first region tables and what the accelerator reads of them, the merge of input and output
  parameters, the parser of the job specification, and the creation of a handle out of all these.
* `Witness`: the smallest connection, a run of it that finishes a call, and three runs that end
  because the answer or a request is polled ahead of an own completion.

## Where the code does not do what one would expect

These are stated as exact conditions:

* A request message fits its buffer for at most 31 regions, not 32 (`Wire.RequestMessageSize`).
* Nothing checks that a requested address fits its 7 bytes; it survives exactly below 2^56
  (`RegionTables.AddressSurvivesIff`), so a layout that ends at 2^56 loses its empty last regions
  (`RegionTables.LayoutSurvivesIff`). A length survives exactly below 2^32
  (`Setup.SizesAgreeIff`).
* A handler of the joint machine fails exactly in these cases: the host polls the answer of the setup
  before the acknowledgement of its request (`PollSteps.HostPollKeeps`); an allocation for the setup
  fails, or the worker polls a request before the completions of its own sends
  (`ServerSteps.ServerPollKeeps`). All orders that are refused are reachable: an early answer, an
  early request during the setup, and an early second request during a reply
  (`Witness.AnswerCanOvertake`, `Witness.RequestCanOvertake`, `Witness.NextRequestCanOvertake`).
* The top bit of a function code is lost (`ImmediateWords.RequestRecovered`), an error code never
  reaches the host's response value (`ImmediateWords.ErrorCodeLost`), and an error reply leaves the
  worker waiting unless it has exactly one output (`ImmediateWords.ErrorReplyWaits`).
* `lib/naaice.h` says that a byte count of 0 restores the full length; the code restores it for
  negative counts and sends zero bytes for 0. The model follows the code (`Host.SetBytesToSend`,
  `Settings.WholeRegionIff`).
* The accelerator arms its completion queue after draining it, and may stop draining early. That
  strands completions exactly if the queue is not empty at the moment of arming
  (`Notify.WorkerArmsWell`), which happens in both ways (`Notify.LateArrivalStrands`,
  `Notify.EarlyStopStrands`). The host arms first, which never strands a solicited completion
  (`Notify.HostNeverStranded`).
* A free connection slot has a worker pointer exactly if its last release was a failed initialisation
  (`ConnectionSlots.FreePointersIff`).
* Single-send regions are dropped by a 32-bit call counter. A call sends none exactly if the counter
  is positive or none is marked (`Settings.NoSinglesIff`). `lib/naaice.h:607-612` asks for the setter
  before the setup, and then no later call sends one, wrap-around or not
  (`Settings.MarkedBeforeSentOnce`); the code does not enforce that order, and a region marked when
  the counter has wrapped to 0 is sent again (`Settings.WrappedCounterSends`).
* Sending a region once gives the kernel the same memory as sending it on every call exactly if each
  call finds the accelerator still holding it (`Cache.CacheExact`).

## Model

| member | source | states |
|---|---|---|
| `Wire.RequestRoundTrip` | lib/naaice.h:149-183 | A record with any flag byte, any 56-bit requested address and any big-endian address, key and size decodes to itself. |
| `Wire.RequestBytesRoundTrip` | lib/naaice.h:149-183 | Every 24 bytes are the encoding of what they decode to: the codec is a bijection. |
| `Wire.FlagsRoundTrip` | lib/naaice.c:1498-1513 | The three marks are read back independently from the flag byte, and a parameter record never looks internal. |
| `Wire.PackInfo` | lib/naaice.c:1515-1519 | The byte loop puts the flags above exactly the low 56 bits of the address, whatever the address. |
| `Wire.PutField` | lib/naaice.c:1495-1497 | Storing a big-endian field changes only its own bytes. |
| `Wire.ConcatSlot` | lib/naaice.c:1488-1491 | Slot i of a message body holds record i, whatever records follow it. |
| `Wire.RequestMessageSize` | lib/naaice.h:109-113 | The message ends at 4 + 24 * count and fits its 768 bytes if and only if count <= 31, one less than the limit on regions. |
| `Wire.RequestsRoundTrip` | lib/naaice_swnaa.c:865-883 | The receiver reads back exactly the records sent, in order, whatever bytes follow the message. |
| `Wire.AdvertsRoundTrip` | lib/naaice.c:973-1001 | The same for the answer and the advertisements it carries. |
| `Wire.RequestMessageInjective` | lib/naaice.c:1473-1555 | Two equal request messages carry the same records. |
| `Bytes.BeAt` | lib/naaice.h:80-81 | The byte at place k of a field has the weight 256^(width - 1 - k): fields are big-endian. |
| `Messages.BuildRequestMessage` | lib/naaice.c:1473-1555 | The in-place loops write the header and all records over the buffer, keep the bytes behind them, and return the exact end offset, inside the buffer. Byte by byte, record i holds the flags, the address requested for peer i modulo 2^56 and the advertised buffer; an internal record its address, no buffer and flag 1. |
| `Messages.RequestSays` | lib/naaice.c:1485-1555 | The same of the message of any tables, whatever follows it. |
| `Messages.SentSays` | lib/naaice.c:1427-1566 | The posted bytes are those of an error, a request or an answer, of exactly the length of their records. |
| `Messages.SendingChanges` | lib/naaice.c:1427-1591 | The bytes sent stay in the buffer, what they did not reach stays as it was, and nothing else but the state changes. |
| `Messages.BuildAnswerMessage` | lib/naaice_swnaa.c:1046-1073 | The same for the answer message. |
| `Messages.BuildErrorMessage` | lib/naaice.c:1557-1566 | An error message has type, code and two bytes of old buffer contents. |
| `Messages.SendMessage` | lib/naaice.c:1427-1591 | Sending hands over exactly the built message and leaves the context in MRSP_SENDING with every other field unchanged. |
| `Context.CommContext.constructor` | lib/naaice.c:198-245 | A new context is in INIT and holds the given unmarked tables, zero counters, the function code alone in its immediate, and a cleared message buffer. |
| `Context.InitContext` | lib/naaice.c:166-245 | A context is made if and only if the function code is not 0. |
| `Settings.NewIsConsistent` | lib/naaice.c:198-233 | A new context meets what the setters and transfers keep, and its immediate names its function code. |
| `Chain.FillSlots` | lib/naaice.c:1677-1713 | The loop fills one slot per marked region, in index order, and no other. |
| `Chain.PostSend` | lib/naaice.c:1715-1720 | Posting follows the links from the first slot and terminates. |
| `Chain.ChainCorrect` | lib/naaice.c:1677-1713 | Following the links meets every marked region exactly once and in index order, numbers the requests from 1, pairs region i with peer i, marks a request inline if and only if it fits the limit, and meets the only immediate at the end. |
| `Chain.MarkedComplete` | lib/naaice.c:1681-1684 | No marked region is missed. |
| `Host.SetInputMr` | lib/naaice.c:806-825 | Whole new context of marking an input; an out-of-range index or an existing mark changes nothing. |
| `Host.SetOutputMr` | lib/naaice.c:827-847 | The same for an output. |
| `Host.SetSingleSendMr` | lib/naaice.c:849-871 | The same for a single-send region, which also becomes an input once. |
| `Host.SetBytesToSend` | lib/naaice.c:1593-1621 | Whole new context of a byte limit: refused above the registered length, and a negative count (not 0, as the header says) restores that length. |
| `Host.SetImmediateBytes` | lib/naaice.c:897-907 | The loop puts the function code in the low byte and the three user bytes above it. |
| `Host.RequestWordParts` | lib/naaice.c:1697-1697 | Forcing the start bit changes only the low byte, and only for codes below 128. |
| `Host.DropSingleSends` | lib/naaice.c:1668-1675 | The loop takes the mark off exactly the single-send regions once a call has been made, and lowers the counter by as many. |
| `Host.DropKeepsCount` | lib/naaice.c:1668-1675 | The number of marks after dropping is the number before minus the number dropped. |
| `Host.WriteKeepsCounted` | lib/naaice.c:1623-1724 | A write leaves the input counter equal to the number of marked regions. |
| `Host.WriteData` | lib/naaice.c:1623-1724 | Whole new context of a data write; the posted list writes the regions still marked, in order, each up to its limit to its peer, inline if and only if it fits the limit, or is the single empty write to the first peer for function code 0. |
| `Host.InitDataTransfer` | lib/naaice.c:922-935 | The same for starting a call, which also advances the 32-bit call counter; a receive that cannot be posted first turns the function code into 0. |
| `Host.RecordAnswer` | lib/naaice.c:973-1001 | The loop overwrites address, key and size of the first peers by the decoded answer and keeps every mark. |
| `Host.CountTransfer` | lib/naaice.c:1023-1057 | Whole new context of counting one completion of a transfer. |
| `Host.HandleWorkCompletion` | lib/naaice.c:937-1062 | Whole new context and return value of the handler in every state and for every opcode. |
| `HandlerOutcomes.HostAcceptsIff` | lib/naaice.c:937-1062 | The host accepts a completion if and only if it is a successful one of the kind its state waits for; a refused one changes nothing, and no completion changes marks, counters of marks, immediate or call counter. |
| `HandlerOutcomes.AnswerRecorded` | lib/naaice.c:973-1001 | From the bytes of an answer the host takes address, key and size of each region counted there, big-endian and in this order, and leaves the other regions. |
| `HandlerOutcomes.TransferMoves` | lib/naaice.c:1023-1057 | During a transfer FINISHED is reached if and only if every write is acknowledged and the response is in; short of that only the tracker, and without a response the state, moves. |
| `CompletionOrder.DrainCq` | lib/naaice.c:1065-1082 | Draining handles the completions in order up to and including the first that fails. |
| `CompletionOrder.OrderDoesNotMatter` | lib/naaice.c:1023-1057 | For every order of n writes, one response and plain receives before the last counted completion: nothing fails, FINISHED is reached exactly with the (n+1)-th counted completion and never earlier, and both trackers are then reset. |
| `CompletionOrder.ResponseKept` | lib/naaice.c:1034-1041 | The user bytes and the length of the response survive whatever comes after it. |
| `CompletionOrder.NothingAfterFinished` | lib/naaice.c:1059-1061 | A completion that comes after FINISHED is refused. |
| `CompletionOrder.CallIsFresh` | lib/naaice.c:1627-1631 | Every started call with an input left satisfies the premise of the order theorem, with as many counted writes as were posted. |
| `Settings.AnySequenceConsistent` | lib/naaice.c:806-871 | After any sequence of setters and data transfers both counters equal the marks, and no region sends more bytes than it has registered. |
| `Settings.SettersEffect` | lib/naaice.c:806-871 | The setters accept exactly the indices of regions and change only the marks and the counter they name, of that region only. |
| `Settings.LimitEffect` | lib/naaice.c:1593-1621 | A byte limit is accepted if and only if the region is registered and at least that long, and changes only the bytes to send of that region. |
| `Settings.WholeRegionIff` | lib/naaice.c:1593-1621 | For a registered region a count up to its length is accepted, any other changes nothing; the whole region is then sent if and only if the count is negative or the length. |
| `Settings.NextChainProper` | lib/naaice.c:1668-1713 | After any such sequence the next transfer posts a fully linked chain of exactly the marked regions, each within its length, with one immediate at the end; it has no single-send region if and only if the 32-bit call counter is positive or none is marked. |
| `Settings.NoSinglesIff` | lib/naaice.c:1668-1675 | The next call sends no single-send region if and only if the counter is positive or none is marked. |
| `Settings.MarkedBeforeSentOnce` | lib/naaice.h:607-612 | If all inputs are marked before the first call, no later call sends a single-send region, however often the counter wraps around. |
| `Settings.WrappedCounterSends` | lib/naaice.c:1670-1675 | A region marked as single-send when the counter has wrapped to 0 is sent by the next call, after 2^32 others. |
| `ImmediateWords.RequestRecovered` | lib/naaice_swnaa.c:694-704 | For every code and all three user bytes the worker accepts the request, recovers the user value exactly and the code modulo 128; the code is recovered if and only if it is below 128. |
| `ImmediateWords.ErrorRequestRefused` | lib/naaice.c:1633-1652 | The single write for function code 0 is refused by the waiting worker, which changes nothing. |
| `ImmediateWords.UnarmedAsksNothing` | lib/naaice.c:922-935 | A call whose receive could not be posted loses the function code and posts the one empty write. |
| `ImmediateWords.ErrorCodeLost` | lib/naaice.c:1034-1034 | The host handles the reply of a failed kernel exactly as a successful one: the code never reaches the response value. |
| `ImmediateWords.ErrorReplyWaits` | lib/naaice_swnaa.c:729-746 | After the one write of an error reply the worker returns to receiving if and only if it has exactly one output. |
| `ImmediateWords.ReplyWrites` | lib/naaice_swnaa.c:1202-1243 | The reply of a successful call writes every output in full and in order, ends with the immediate 0 and sends nothing inline. |
| `Server.CountRecords` | lib/naaice_swnaa.c:865-883 | The first pass counts parameter and internal records. |
| `Server.FillRecord` | lib/naaice_swnaa.c:914-1017 | One record of the second pass fills the next parameter or internal entry, with marks swapped. |
| `Server.FillTables` | lib/naaice_swnaa.c:910-1017 | The second pass writes inside the arrays sized by the first, fills them completely, and stops at the first failed allocation. |
| `Server.AnnounceAndRequest` | lib/naaice_swnaa.c:843-1020 | Both passes together produce the tables of the request, or fail if and only if an allocation fails. |
| `Server.AnswerRequest` | lib/naaice_swnaa.c:642-653 | The answer, or an error message, is sent as the specification says. |
| `Server.CountReply` | lib/naaice_swnaa.c:729-746 | The last acknowledged reply write resets the tracker and returns to receiving. |
| `Server.AwaitRequest` | lib/naaice_swnaa.c:564-573 | Waiting for a request counts the call and changes only the state besides. |
| `Server.HandleWorkCompletion` | lib/naaice_swnaa.c:601-752 | Return value, message sent, state and message buffer for every state and opcode, and the whole new context except after a failed allocation. |
| `HandlerOutcomes.ServerAcceptsIff` | lib/naaice_swnaa.c:601-752 | The worker sends a message if and only if a setup request is completed; of the others it accepts exactly the successful ones its state waits for, a request only with a non-zero word, and a refused one changes nothing. |
| `HandlerOutcomes.RequestAnswered` | lib/naaice_swnaa.c:642-653 | A setup request is answered by an answer if it succeeds and by error 1 otherwise, and leaves MRSP_SENDING. |
| `HandlerOutcomes.ServerMoves` | lib/naaice_swnaa.c:675-746 | Where the worker goes with every other completion it accepts. |
| `Server.WriteData` | lib/naaice_swnaa.c:1145-1256 | The reply writes every output in full to its peer, in order, with a zero immediate at the end, or is the one empty write to the first peer that carries an error code; nothing is sent inline. |
| `Server.CountOutputs` | lib/naaice_swnaa.c:1191-1200 | The counting loop finds the number of marked regions. |
| `Setup.RequestArrives` | lib/naaice.c:1473-1555 | The host's request reads as the host's records in whatever buffer receives it. |
| `Setup.FillMirrors` | lib/naaice_swnaa.c:910-1017 | The worker's tables after i records are the mirror of the host's first i regions, input and output marks exchanged. |
| `Setup.TablesAgree` | lib/naaice_swnaa.c:959-990 | After request and answer both tables name the same buffers, keys and sizes, and the counters are equal. |
| `Setup.SizesAgreeIff` | lib/naaice.c:1496-1496 | The announced size equals the length if and only if the length is below 2^32. |
| `Setup.ExchangeAgrees` | lib/naaice.c:957-1021 | Through both handlers and both byte messages the host ends MRSP_DONE in agreement with the worker, for up to 31 regions. |
| `Setup.ExchangeFails` | lib/naaice_swnaa.c:642-647 | One failed allocation makes both handlers report failure. |
| `Creation.RegisterMrs` | lib/naaice.c:719-744 | The loop registers every region at its size, with the key it is given. |
| `Creation.CreatedIsInitial` | lib/naaice_ap2.c:209-290 | A new context over any fresh tables with distinct addresses, after any setters and the middleware's marking, registration and connection, is where the statements about runs start, and holds every region at its address and size with the key handed out for it, provided some output and some input of every call are marked. |
| `Invariant.InitialInv` | lib/naaice_swnaa.c:446-446 | The established connection satisfies the joint invariant. |
| `HostSteps.SetupKeeps` | lib/naaice.c:909-920 | Starting the setup keeps the joint invariant. |
| `HostSteps.CallKeeps` | lib/naaice.c:922-935 | Starting a call keeps it, with at least one write queued. |
| `NetSteps.RequestWriteDelivered` | lib/naaice.c:1689-1705 | Every queued input write is accepted and overwrites exactly the prefix of the accelerator's region of the same index. |
| `NetSteps.ReplyDelivered` | lib/naaice_swnaa.c:1219-1236 | Every queued reply write is accepted and replaces exactly the host's region of the same index. |
| `PollSteps.HostPollKeeps` | lib/naaice.c:937-1062 | A host poll fails if and only if the answer is polled before the acknowledgement of the request; otherwise the invariant is kept. |
| `ServerSteps.ServerPollKeeps` | lib/naaice_swnaa.c:601-752 | A worker poll fails if and only if an allocation fails or a request is polled ahead of the worker's own completions. |
| `ServerSteps.ComputeKeeps` | lib/naaice_swnaa.c:372-386 | The kernel is called with the host's code modulo 128 and user value, and ends the run if and only if it reports an error. |
| `ServerSteps.ReplyKeeps` | lib/naaice_swnaa.c:541-546 | Posting the reply keeps the invariant. |
| `Runs.StepKeeps` | lib/naaice_swnaa.c:356-404 | Every step of every participant keeps the invariant and ends the run exactly in the refused situations; in particular no packet is ever refused. |
| `Runs.TurnTaking` | lib/naaice_swnaa.c:372-393 | In every run finished <= replied <= kernel runs <= requested <= started <= finished + 1, and while the server is in CALCULATING, from taking up the request to posting the reply, the host is in its transfer with the response neither handled nor queued. |
| `Runs.RunEndsIff` | lib/naaice.c:937-1062 | At any point of any run a step ends it if and only if it is one of the refused situations. |
| `Runs.ReceiveCredits` | lib/naaice.c:1753-1784 | In every run the host holds at most one posted receive and the worker at most two, and each message or immediate about to arrive finds one. |
| `Runs.WritesInBounds` | lib/naaice.c:1593-1621 | In every run every queued write of either side matches address and key of a registered region and is no longer than it, whatever limits were set; it is inline if and only if it fits the limit of the host, and never from the worker. |
| `Progress.NeverStuck` | lib/naaice_swnaa.c:356-404 | In every run that goes on, some step of host, network or worker carries on without ending it unless, and only unless, there is nothing left to send or acknowledge and no queue head that its handler accepts; outside the pauses between calls that takes an overtaken completion or a failing kernel. |
| `Progress.CallsEnd` | lib/naaice.c:922-935 | From any point of any run at most 16 n + 34 steps can be taken before the application calls again, for n regions; when none is left the host is between calls, a completion has been overtaken, or the kernel fails. |
| `Progress.QueuesStayShort` | lib/naaice.c:658-683 | In every run each end has at most n + 1 packets, acknowledgements and completions outstanding, and the host at most one more than its inputs during a call. |
| `CallResponse.FinishedResponse` | lib/naaice.c:1034-1041 | In every run, whenever the host is in FINISHED the user response is 0 and the number of bytes received is the length of the last output. |
| `Shadow.CallMeaning` | lib/naaice_swnaa.c:1191-1250 | A call of the specification makes every output equal on both sides and leaves every other host region alone. |
| `Shadow.ReceivedMeaning` | lib/naaice.c:1668-1705 | Of a region that is sent the kernel finds the host's bytes up to the limit, and otherwise what the accelerator held. |
| `Refinement.StepRefines` | lib/naaice_swnaa.c:356-404 | Each step of the machine is the visible event it shows, or nothing, on the two-memory specification. |
| `Refinement.RemoteCallRefinement` | lib/naaice.c:1623-1724 | Whenever a run reaches FINISHED both memories equal those of the specification after the run's visible events: prefix copies of the regions sent, one kernel run and copied outputs per call, for any flags, limits, writes in between, number of calls and interleaving. |
| `Refinement.FinishedOutputs` | lib/naaice.c:1023-1057 | At the poll that finishes a call every host output equals the accelerator's region and every other host region is what the application left in it. |
| `Cache.SameReceivedIff` | lib/naaice.c:1668-1675 | Resending brings the accelerator nothing new if and only if it still holds the prefix of each region that was sent once. |
| `Cache.CacheExact` | lib/naaice.c:1668-1675 | Over any events, sending once and resending give the kernel the same memory on every call if and only if every call finds the regions so cached. |
| `Cache.CacheAlong` | lib/naaice.c:1668-1675 | Where every call finds the regions cached, both ways end in the same state of the specification. |
| `Cache.FixedStaysCached` | lib/naaice.h:607-612 | Every call finds them cached if after the first call the application leaves them alone and each kernel run of these events keeps those that are no outputs. |
| `Cache.SendOnceIsCache` | lib/naaice.h:607-612 | Two runs with the same visible events, one with single-send regions and one resending them, end with equal memories on both sides, if each call of the first finds the regions cached. |
| `Cache.FixedSendOnceIsCache` | lib/naaice.h:607-612 | The same from the conditions on application and kernel along the run. |
| `Cache.ChangedSingleShows` | lib/naaice.c:1668-1675 | A kernel that changes such a region without returning it can make the two ways differ. |
| `Kernels.RaiseInPlace` | examples/kernels/swnaa_kernels.c:24-26 | The inner loop adds 2 modulo 256 to every byte. |
| `Kernels.RaiseRegions` | examples/kernels/swnaa_kernels.c:20-28 | The outer loop does so for every region. |
| `Kernels.AddInPlace` | examples/kernels/swnaa_kernels.c:14-16 | The loop writes the byte image of the wrapped sums over the third buffer. |
| `Kernels.AddedWords` | examples/kernels/swnaa_kernels.c:6-18 | Word by word that image is the sum modulo 2^32, and bytes behind the last word stay. |
| `Kernels.AddDispatched` | examples/kernels/swnaa_kernels.c:6-18 | Code 1 succeeds if and only if there are three regions and the words of the first fit the others; then every word of the third is the sum modulo 2^32 of those of the first two, its tail and every other region stay, and otherwise everything does. |
| `Kernels.OthersDispatched` | examples/kernels/swnaa_kernels.c:37-59 | Code 2 raises every byte of every parameter by 2 and succeeds, code 3 succeeds and changes nothing, any other code fails and changes nothing. |
| `Kernels.ExamplesFit` | examples/kernels/swnaa_kernels.c:37-59 | The dispatched kernels stay inside their buffers, as the refinement needs. |
| `Kernels.RepeatedRaise` | examples/kernels/swnaa_kernels.c:20-28 | After k finished full-length calls of kernel 2 each byte of an output that is an input is its original value plus 2k modulo 256, each byte of an output-only region is 2k modulo 256, and every other host region is unchanged. |
| `Kernels.RepeatedAdd` | examples/kernels/swnaa_kernels.c:6-18 | After k > 0 finished full-length calls of kernel add every word of the host's third region is the wrapped sum of the first two as they were at the start, its tail is what the accelerator started from, and operands are unchanged, whichever regions are sent only once. |
| `Kernels.ExamplesSendOnce` | examples/kernels/swnaa_kernels.c:37-59 | With the example kernels the cache statement holds for kernel add and for every other code but kernel 2, for connections in which, as for all runs here, one input is sent on every call: of kernel add an operand or the region of the sum. |
| `Notify.HostNeverStranded` | lib/naaice.c:1084-1133 | With completions arriving at any moment: between a returned poll and the next event taken the queue is armed or an event is unread, and a queued solicited completion implies an unread event. |
| `Notify.WorkerArmsWell` | lib/naaice_swnaa.c:797-838 | In every run of the worker's order, with its early stop at a state change and its arming for every completion, a poll strands completions if and only if the queue is not empty at the moment of arming. |
| `Notify.WorkerStrandedIff` | lib/naaice_swnaa.c:754-841 | Between two polls the worker is stranded if and only if its queue is armed and holds a completion. |
| `Notify.NextArrivalWakes` | lib/naaice_swnaa.c:831-838 | A stranded worker that has armed is woken by the next completion, solicited or not. |
| `Notify.LateArrivalStrands` | lib/naaice_swnaa.c:823-838 | A completion between the last empty poll and the arming is stranded. |
| `Notify.EarlyStopStrands` | lib/naaice_swnaa.c:816-821 | A drain that stops at a state change strands what is queued behind it. |
| `Notify.PollDrains` | lib/naaice.c:1084-1133 | On both sides: woken by an event and left alone, a poll handles all that is queued and ends armed and waiting. |
| `ConnectionSlots.ConnectionManager.constructor` | lib/naaice_swnaa.c:65-70 | All slots are free at the start. |
| `ConnectionSlots.ConnectionManager.Take` | lib/naaice_swnaa.c:263-265 | Taking pops the top slot. |
| `ConnectionSlots.ConnectionManager.Release` | lib/naaice_swnaa.c:396-399 | Releasing pushes the slot on top. |
| `ConnectionSlots.SlotsConserved` | lib/naaice_swnaa.c:250-310 | In every interleaving of the master with its workers no pop underflows although `top` is compared outside the lock; free slots are distinct, in range and not in use; free, held, pending, running and stranded slots add up to all. |
| `ConnectionSlots.RejectedIffFull` | lib/naaice_swnaa.c:250-262 | In every interleaving a request is turned away if and only if every slot is pending, running or lost. |
| `ConnectionSlots.FreePointersIff` | lib/naaice_swnaa.c:266-284 | In every interleaving a free slot has a worker pointer if and only if its last release was a failed initialisation. |
| `ConnectionSlots.PointerOnFreeSlot` | lib/naaice_swnaa.c:266-272 | After a failed initialisation a free slot has a worker pointer, so pointers do not show ownership. |
| `AddressLayout.SequentialAddresses` | lib/naaice.c:114-122 | The loop computes each address as the wrapped sum of the rounded sizes before it. |
| `AddressLayout.LayoutCorrect` | lib/naaice.c:114-122 | Without overflow regions are ordered and disjoint, congruent to the offset modulo 4096, and waste less than a page each. |
| `AddressLayout.StepsByPages` | lib/naaice.c:114-122 | The first address is the offset, and each next one is ahead, modulo 2^64, by the multiple of 4096 that covers the region before; a region within a page of 2^64 bytes moves it by nothing. |
| `AddressLayout.LayoutFitsIff` | lib/naaice.c:399-406 | In a layout that ends by 2^56 the address of a region fits 7 bytes if and only if the layout ends below 2^56 or some region from that one on is not empty. |
| `RegionTables.InitTables` | lib/naaice.c:390-411 | The loops lay internal regions out first and parameters behind them, and give parameter i the host memory, size and requested address of its own. |
| `RegionTables.RequestReads` | lib/naaice_swnaa.c:865-883 | From the bytes of a request the accelerator reads, for parameter i, the address wanted for peer i modulo 2^56 and the host buffer, and for an internal region its address, no buffer and the internal flag. |
| `RegionTables.AddressSurvivesIff` | lib/naaice.c:1515-1519 | In any request the requested address of a parameter arrives unchanged if and only if it is below 2^56. |
| `RegionTables.LayoutRequested` | lib/naaice.c:390-411 | Through tables, any setters, marking, registration, connection and message bytes: the record of each region asks for the address of that region in the layout modulo 2^56 and offers the memory and the key of its parameter. |
| `RegionTables.LayoutSurvivesIff` | lib/naaice.c:1515-1519 | In a layout that ends by 2^56 the accelerator reads the address of a region unchanged if and only if the layout ends below 2^56 or some region from that one on is not empty. |
| `ParameterMerge.FindShared` | lib/naaice_ap2.c:180-191 | The nested search computes the number of regions and which outputs are inputs. |
| `ParameterMerge.FillRegions` | lib/naaice_ap2.c:193-207 | The two fill loops write every slot of the arrays in bounds: address and size of input i in slot i, then those of each output that is no input, once and in the order of the outputs. |
| `ParameterMerge.Locate` | lib/naaice_ap2.c:232-233 | The search finds the first region with the address, if there is one. |
| `ParameterMerge.MarkParameters` | lib/naaice_ap2.c:228-285 | The marking loops apply the setters to the first region with each parameter's address and fail at the first parameter without one. |
| `ParameterMerge.AllFound` | lib/naaice_ap2.c:250-255 | Every parameter is found among the merged regions. |
| `ParameterMerge.MarksAsRequested` | lib/naaice_ap2.c:228-285 | For distinct addresses a region is an input if and only if some input or some single-send output has its address, an output if and only if some output has it. |
| `ParameterMerge.MarkingOkIff` | lib/naaice_ap2.c:228-285 | Marking succeeds if and only if every parameter has a region with its address. |
| `ParameterMerge.MarkingCounted` | lib/naaice_ap2.c:228-285 | Marking keeps the counters equal to the marks, also when it stops at a missing parameter. |
| `ParameterMerge.MarkingOnly` | lib/naaice_ap2.c:228-285 | Marking changes tables and counters only. |
| `HandleCreation.Create` | lib/naaice_ap2.c:150-299 | There is a handle if and only if the first unused item for the code expects this many inputs, the low byte of the code is not 0 and the connection is set up; then regions, marks, keys, requested addresses and immediate are those of the parameters. The item is attached even if one of the last two fails, and no other changes. |
| `HandleCreation.CreatedStartsRuns` | lib/naaice_ap2.c:286-299 | A created handle is where the statements about runs start, if addresses are distinct and some output and some input of every call are marked. |
| `HandleCreation.CreatedRequests` | lib/naaice_ap2.c:209-213 | Its request asks for consecutive pages from address 0 on, and offers the memory of the parameters with their keys. |
| `JobSpec.StrSep` | lib/naaice_ap2.c:120-120 | Taking tokens one by one yields the pieces of the split. |
| `JobSpec.SplitCount` | lib/naaice_ap2.c:104-109 | The slots allocated are exactly as many as there are chunks. |
| `JobSpec.ParseChunk` | lib/naaice_ap2.c:51-78 | A chunk changes only the slot being filled and succeeds if and only if it has four fields. |
| `JobSpec.Parse` | lib/naaice_ap2.c:103-124 | The table holds exactly the items of the well-formed chunks in order; a rejected chunk leaves no trace in it. |
| `JobSpec.FindUnused` | lib/naaice_ap2.c:133-146 | The first unused item with the function code is found, or there is none. |
| `JobSpec.Acquire` | lib/naaice_ap2.c:160-176 | A handle is attached to the first unused item with the function code if and only if that item expects the number of inputs given; nothing else changes. |
| `JobSpec.StrtolReads` | lib/naaice_ap2.c:62-72 | Any string is read as the signed number behind leading white space, cut to 64 bits; what follows the digits is ignored. |
| `JobSpec.ChunkSays` | lib/naaice_ap2.c:51-78 | Four fields are address, port, function code and parameter count, cut to 16 and 32 bits. |
| `JobSpec.PrintParse` | lib/naaice_ap2.c:80-131 | Parsing the printed form of any non-empty list of items gives that list back. |
| `JobSpec.Ports` | lib/naaice_ap2.c:62-66 | An empty port means 12345 and a larger number is cut to 16 bits. |
| `Witness.SmallestIsInitial` | lib/naaice.c:390-410 | There is a connection that meets the premises of the statements about runs. |
| `Witness.CallCanFinish` | lib/naaice_swnaa.c:356-404 | From it a run completes a whole call. |
| `Witness.AnswerCanOvertake` | lib/naaice.c:957-971 | From it another run has the host's handler refuse the answer, because it is polled before the acknowledgement of the request. |
| `Witness.RequestCanOvertake` | lib/naaice_swnaa.c:675-684 | From it another run has the worker's handler refuse a request in MRSP_SENDING, because it is polled before the acknowledgement of the answer. |
| `Witness.NextRequestCanOvertake` | lib/naaice_swnaa.c:729-752 | From it another run has the worker's handler refuse a second request in DATA_SENDING, because it is polled before the completion of the reply to the first. |

## Assumptions of the statements about runs

The connection is reliable and in order; it refuses a write whose address, key or length does not
match a registered region, and a message or immediate without a posted receive. Allocated buffers
have distinct addresses. The application writes its regions and changes limits or immediate between
calls only. The connection has at least one output and one input that is sent on every call, a
non-zero function code, and lengths below 2^32. The kernel keeps the length of every buffer; a kernel
that reports an error, a failed allocation and a handler that returns -1 end the run.

## Left out

- Address and route resolution, queue-pair and protection-domain creation, inline-size probing, ack
  timeouts and all other verbs and connection-manager calls: foreign code; they appear as steps of
  the environment or as premises.
- The HTTP client of the remote memory management service, cleanup and disconnection, and the
  handlers of connection-manager error events: guarded lists of foreign calls.
- Timeouts, alarms and termination of waiting: the code gives no such promise for completions that
  raise no event; a run may stop anywhere. `Progress` says which steps are possible and that they
  run out, where polling is a step whenever a completion is queued, whether or not an event was
  raised for it.
- Failed completions in whole runs: the handlers are modelled for them (they return -1), the joint
  machine delivers successful ones only.
- Function code 0 and a failed `ibv_post_recv` on the host, and non-zero kernel codes, in whole runs:
  the calls, the handlers and the posted writes are modelled, the runs end or do not start there.
- User buffers that overlap or share an address, in whole runs: regions are separate byte sequences.
- The worker's own event poll in whole runs: the joint machine lets it poll whenever a completion is
  queued and hands control back where the code does; lost wake-ups are shown in `Notify` only.
- Failed allocation of the tables themselves, as opposed to the buffers of single records, on the accelerator.
- A setup message whose region count exceeds the receiver's table or buffer: the handlers require that
  it fits, since reading past the buffer has no meaning in the model.
- Kernels.RpcFunction: kernel add returns an error when its buffers cannot hold the sums, where the code would write past them; the delay kernel changes nothing, and the time it takes is not modelled.
- Server.WriteData: requires an output mark if there are regions and no error code; without one the code posts the first element of an array of no elements, whose contents it never set.
- Host.WriteData: requires, for a non-zero code, that some region is still marked after the single-send regions are dropped; otherwise the code posts from an empty array as above.
- Host.InitDataTransfer: the same premise when the receive was posted.
- HandleCreation.Create: requires fewer than 256 parameters, since the code keeps their number in 8 bits; registration always succeeds, and the setup that follows it belongs to the runs.
- Server.AnswerRequest: does not say what the tables hold after a failed allocation, as for the handler below.
- Server.HandleWorkCompletion: does not say what the tables hold after a failed allocation; the code leaves them half filled and ends the connection.
- ConnectionSlots: the worker's thread and its context are represented by the place of its slot only; connections that never leave the pending state stay there.
- Logging, string tables, command-line programs, energy measurement, the C++ header and build files.
