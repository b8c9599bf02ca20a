# An FTP proxy, modelled and proved

The proxy sits between FTP clients and an FTP server. A pool of threads runs its main
loop; the loop dispatches readable and writable descriptors to sessions kept on an
intrusive list; each session relays the command channel and the data channel, and
rewrites the PORT command (section 4.1.2 of RFC 959, grammar in section 5.3.2) so that
the server connects to the proxy instead of the client. Four components are modelled.

**The thread pool** (`Pool*.dfy`, `QueueSpec.dfy`, `JobQueue.dfy`). `PoolModel` is a
transition system with any number of workers: each has a program counter in `thread_do`,
and one step is one critical section or one access to shared data outside all of them.
A pusher, the caller of `thread_pool_wait` and the caller of `thread_pool_free` take
steps too, and condition variables may wake up spuriously. `PoolSafety` has the
invariant and what follows for every run, `PoolProgress` and `PoolShutdown` the measures,
`PoolFaults` the empty pull, `PoolSteps` who can be held up by whom and what a wait covers. `JobQueue` refines the queue with heap nodes; the transition
system and the class use the same two functions, those of `QueueSpec`.

**The intrusive list** (`Ring.dfy`, `Sequences.dfy`): links on the heap, each operation against a ghost
sequence, and the iteration that unlinks what it visits.

**The PORT codec** (`Text.dfy`, `PortSpec.dfy`, `PortCommand.dfy`, `PortTheorems.dfy`,
`PortNumbers.dfy`).
`PortSpec` says what the recogniser, the parser and the printer answer, `PortCommand` has
the loops over character arrays, proved against that, `PortTheorems` relates the three,
and `PortNumbers` has the characters, values and limits in plain figures. `inet_aton` and `inet_ntoa` are functions: decimal, octal and hexadecimal numbers,
one to four parts, text behind a blank ignored, as the GNU C library has it.

**The relay** (`Packet.dfy`, `SessionModel.dfy`, `Rewriting.dfy`, `Streams.dfy`, `Relay.dfy`,
`Traffic.dfy`, `Backlogs.dfy`, `Leaks.dfy`, `Limits.dfy`, `Transfers.dfy`, `Sockets.dfy`,
`Sessions.dfy`, `Registry.dfy`). `SessionModel` gives each handler as a function on a
session value with its history; `Relay` runs them as a proxy and proves what holds in
every run; `Traffic` and `Backlogs` show that histories, overruns and losses are what the
events of the run say; `Rewriting` is about chunks that are not one line, `Streams` about
the text that all reads from a client make up, `Leaks` about descriptors nobody owns.
`Limits` has the capacities and what the kernel may do in plain figures, `Transfers` whole
exchanges.
`Sockets`, `Sessions` and `Registry` are the structures on the heap: their methods are
proved equal to those functions, up to `SessionList`, whose methods for the three kinds
of events do what `Relay.Do` does. The kernel is an oracle: `Packet.Kernel` answers reads
and writes from a script of short counts, interruptions and errors; new descriptors,
socket names and failures are parameters of the events.

Where the code does not do what it evidently means to, the model says which it takes:

- `binary_sem_create` (`thread.c:18-41`) never stores its argument. The model starts with
  the intended value, 0.
- `job_queue_pull` (`thread.c:183-195`) has no case for an empty queue, though `thread_do`
  expects NULL. The field `nullGuard` chooses between the intended answer and the code as
  written, which sets `faulted`; all results cover both. `EmptyPullExactly` says when
  the fault can be reached, `AllJobsFinish` leaves it out where it cannot, and
  `ShutdownStopsExactly` says which shutdowns end in it.
- `thread_pool_free` waits for registered workers only (`thread.c:400`). That the pool is
  freed after the last worker has left is false of the code; `FreedAfterLastExitExactly`
  has the exact condition, in any state of any run.
- The clamp in `session_buffer_write` (`session.c:482-485`) uses the whole capacity, not
  the room left. An append that would be copied past the buffer sets `overrun`, behind
  which nothing is claimed; `OverrunIsReachable` is such a run.
- `get_address_from_port_command` is given the length of the whole command for the text
  behind `PORT ` (`client.c:82`). `ArgumentInBuffer` says exactly when its copy then leaves
  the receive buffer; such a command sets `overrun` too, and `OverreadIsReachable` has one
  for every PORT line the proxy can print.
- `session_write_packet` drops what a flush did not send (`session.c:123-126`). The history
  counts it as `lost`; `DeliveryIsTold` says, by the events of a run, when anything is lost
  or overruns.
- A chunk that begins with a PORT line is replaced as a whole (`utils.c:52`,
  `server.c:263-269`): a command behind the line end vanishes (`CommandVanishes`), and may
  keep the address from being dialled. A PORT line that is not at the start of its chunk
  is not rewritten at all, and one that comes in two reads not as one
  (`CutLineReachesTheServer`): the server is told the client's own address.
  One cut in its last field is dialled at the port that the digits before the cut name
  (`CutLineDials`). `RewritesExactly` has the exact condition on a chunk,
  `RewritesAtEveryRead` that on the whole stream of reads, and `EndToEnd` counts what is
  dropped.
- The recogniser counts dots as separators and the parser does not; the parser's
  `inet_aton` stops at a blank and the recogniser does not, and takes a leading zero for
  octal; the parser reads numbers modulo the width of `unsigned long`.
  `RecogniserAgreesExactly`, `DecimalLineParsesExactly` and `PortLoopMeaning` have the exact
  conditions, with inputs that show the differences.
- The port is accumulated in a signed short, whose sign lets some lines through: with three
  numbers between dots the check of its range fails to reject a first one of 128 or more.
  `ThreePortNumbersExactly` has the exact condition.
- `server_data_closed` (`server.c:395-405`) closes the connection, then passes NULL to
  `socket_free` where the listening socket is meant; the model leaves the listening socket open.
- `server_connect` and `server_create` register one descriptor twice (`server.c:144`,
  `server.c:185`). Registration is taken to succeed.
- A second PORT replaces the data sockets without closing them (`client.c:49`,
  `server.c:112`), and `server_free` does not close the accepted connection. `LeaksExactly`
  has the descriptors that each event leaves open and unowned.
- Client data goes to the listening socket (`client.c:114`, `server.c:249-252`). The relay
  is claimed for the command channels and for data from the server.

## Model

| member | source | states |
|---|---|---|
| PoolSafety.InitInv | ftp-proxy/src/thread.c:341-368 | a new pool of any size satisfies the invariant `Inv` |
| PoolSafety.StepKeepsInv | ftp-proxy/src/thread.c:60-290 | every enabled step of every thread keeps the invariant: counters equal the workers they count, io_mutex has the owner it should, no post is slept through, no job is stranded, jobs are conserved, a waiter that sleeps has a reason |
| PoolSafety.RunKeepsInv | ftp-proxy/src/thread.c:233-290 | the invariant holds along every run, not only from the initial state |
| PoolSafety.ReachableInv | ftp-proxy/src/thread.c:322-371 | the invariant holds in every state any run of any pool can reach |
| PoolSafety.NoStrandedJob | ftp-proxy/src/thread.c:137-200 | before shutdown a queued job always has a set token, a worker that holds a token and has not pulled, or an owner of io_mutex about to post; and a set token is never slept through |
| PoolSafety.ExactlyOnce | ftp-proxy/src/thread.c:137-224 | in every run, pushed = pulled ++ discarded ++ queued as sequences, no job is linked or finished twice, and a pulled job has either finished or is in exactly one worker's hands |
| PoolSafety.WaitIsSound | ftp-proxy/src/thread.c:429-444 | when thread_pool_wait returns, every job linked before its last read of job_count has finished, although that read is not under io_mutex |
| PoolSafety.WaiterHasReason | ftp-proxy/src/thread.c:278-284 | an unsignalled sleeping waiter always has a queued job or a worker counted as working |
| PoolSteps.WaitCoversItsCall | ftp-proxy/src/thread.c:429-444 | when thread_pool_wait returns, every job that was linked before it was called has finished, whatever is pushed, pulled or woken in between |
| PoolSteps.PushBetweenReads | ftp-proxy/src/thread.c:437 | a job linked between the waiter's two reads, wherever the pool is, is not waited for: the wait returns with it pushed and not finished |
| PoolSteps.WaitBoundIsTight | ftp-proxy/src/thread.c:436-441 | a run from a new pool in which the wait returns while a job pushed during it has not even been pulled |
| PoolSteps.PushIsFree | ftp-proxy/src/thread.c:137-164 | whether a push may come depends neither on the waiter nor on the workers, the token or the queue: only io_mutex holds it up |
| PoolSteps.WorkersAreFree | ftp-proxy/src/thread.c:233-290 | an awake worker is held up only by the mutex it needs: counting in or out by the waiter, pulling by the owner of io_mutex, and nothing else |
| PoolSteps.OthersAreFree | ftp-proxy/src/thread.c:387-441 | the waiter, spurious wakeups, calls to wait and to free, posts and the shutdown loop are held up by nothing but io_mutex, or a wait that has not returned |
| PoolSteps.WaiterIsWokenByTheLast | ftp-proxy/src/thread.c:278-284 | spurious wakeups aside, a sleeping waiter is woken by a step if and only if that step leaves no worker counted as working |
| PoolSteps.TakerPosts | ftp-proxy/src/thread.c:183-195 | whoever takes a job and leaves others in the queue, worker or job_queue_clear, posts the semaphore, at once or as the owner of io_mutex |
| PoolSteps.StoppedPoolIsEmpty | ftp-proxy/src/thread.c:202-224 | after job_queue_clear, in every run, there is neither a job nor a token |
| PoolSafety.PulledOnce | ftp-proxy/src/thread.c:268-276 | each job is pulled at most once, and pulled exactly as often as it has finished or is held |
| PoolSafety.SignalMoves | ftp-proxy/src/thread.c:60-73 | a signal wakes exactly one sleeper if there is one, so a worker is at the test of the token, and changes no other count |
| PoolSafety.ControlAfterStep | ftp-proxy/src/thread.c:233-290 | counters, mutex ownership, no missed post, no stranded job and the shutdown phases are kept by every step |
| PoolSafety.JobsAfterStep | ftp-proxy/src/thread.c:137-224 | conservation of jobs is kept by every step |
| PoolSafety.WaiterAfterStep | ftp-proxy/src/thread.c:436-441 | the waiter's reason to sleep and what it has seen are kept by every step, in particular by pulls between its two reads |
| PoolModel.WakeAllMoves | ftp-proxy/src/thread.c:75-88 | a broadcast leaves no sleeper: each is back at the test of the token, and every other worker where it was |
| PoolProgress.InternalStepDecreases | ftp-proxy/src/thread.c:90-107 | each step the pool takes by itself, pulls of an empty queue included, decreases the measure |
| PoolProgress.SpuriousStepCosts | ftp-proxy/src/thread.c:98-101 | a spurious wakeup raises the measure by at most 4 |
| PoolProgress.RunsAreBounded | ftp-proxy/src/thread.c:255-285 | a run without outside calls is no longer than the measure of its start and five per spurious wakeup, and changes neither the pushed nor the discarded jobs |
| PoolProgress.NeverStuck | ftp-proxy/src/thread.c:90-107 | until the pool is quiescent (empty queue, no token, every worker asleep, nobody waiting) a step of its own is enabled: no deadlock and no lost wakeup |
| PoolProgress.RunsComplete | ftp-proxy/src/thread.c:255-285 | every run continued until no step is left ends quiescent with every pushed job pulled in order and finished exactly once, or in the fault of an empty pull |
| PoolProgress.AllDone | ftp-proxy/src/thread.c:268-276 | a quiescent pool has finished exactly the pushed jobs, each once |
| PoolShutdown.StopGetsCloser | ftp-proxy/src/thread.c:392-406 | each step of the shutdown loop decreases the exit measure, except broadcasts while the token is still set |
| PoolShutdown.ShutdownIsBounded | ftp-proxy/src/thread.c:387-406 | after threads_keep_alive is cleared, a run can be prolonged only by busy broadcasts and spurious wakeups; all other steps are bounded by the exit measure |
| PoolShutdown.ShutdownNeverStuck | ftp-proxy/src/thread.c:392-406 | until thread_pool_free has stopped, a step that makes progress is enabled |
| PoolShutdown.ShutdownCompletes | ftp-proxy/src/thread.c:387-407 | a shutdown that runs out has stopped with every worker gone; pushed = run ++ thrown away, disjointly, and each run job finished once |
| PoolShutdown.OnlyWorkersPastTheGatePull | ftp-proxy/src/thread.c:255-268 | after the flag is cleared the number of pulls is at most the number of workers already past their second test of it: no shutdown token leads to a pull |
| PoolShutdown.ClearedAfterLastExit | ftp-proxy/src/thread.c:400-406 | if every worker had registered when the flag was cleared, all have left thread_do before job_queue_clear starts and until the end |
| PoolShutdown.LateWorkerIsLeftBehind | ftp-proxy/src/thread.c:389-406 | from every state of a shutdown that can end, each worker that has not registered can be left behind: a run frees the pool with that worker still to take its first step |
| PoolShutdown.FreedAfterLastExitExactly | ftp-proxy/src/thread.c:387-406 | for every reachable state in which thread_pool_free may be called: all runs that free the pool do so after every worker has left, if and only if all workers are registered at the call, or no run gets so far |
| PoolShutdown.DoomedNeverStops | ftp-proxy/src/thread.c:183-195 | a shutdown with fewer jobs than workers bound to pull, as written, never frees the pool |
| PoolShutdown.ShutdownStopsExactly | ftp-proxy/src/thread.c:387-407 | a shutdown that runs out has stopped if and only if, when the flag was cleared, there was a job for every worker bound to pull or an empty pull answers NULL; else it has followed the null front |
| PoolShutdown.SurvivalRun | ftp-proxy/src/thread.c:255-268 | no step of a shutdown changes on which side of that condition it is |
| PoolFaults.CoveredRun | ftp-proxy/src/thread.c:158-195 | with one worker, or one job in all, queued jobs cover all tokens taken or set, so no run follows a null front |
| PoolFaults.TwoWorkersFault | ftp-proxy/src/thread.c:183-195 | a run of two workers and two jobs that follows the null front |
| PoolFaults.PadRun | ftp-proxy/src/thread.c:365-368 | what workers do is still possible beside any number of workers that have not started |
| PoolFaults.EmptyPullExactly | ftp-proxy/src/thread.c:166-200 | for n workers and at most k jobs some run reaches the null front if and only if n >= 2 and k >= 2 |
| PoolFaults.GuardedNeverFaults | ftp-proxy/src/thread.c:268-276 | with the NULL answer that thread_do expects no run follows a null front |
| PoolFaults.NeverFaulted | ftp-proxy/src/thread.c:158-195 | a reachable pool with the NULL answer, at most one worker or at most one pushed job has not followed a null front |
| PoolFaults.AllJobsFinish | ftp-proxy/src/thread.c:255-285 | in such a pool, and with jobs that return, every run continued until no step is left has finished every job, each exactly once, without exception |
| JobQueue.Queue.Push | ftp-proxy/src/thread.c:137-164 | the chain from frontJob to rearJob becomes the old one with the new node at its end, the count its length and the token is set; NULL is refused without effect |
| JobQueue.Queue.Pull | ftp-proxy/src/thread.c:166-200 | the front node leaves the chain, and the token is set again exactly when nodes are left; on an empty queue, where the code follows a null front, exactly that is reported and nothing changes |
| JobQueue.Queue.PullAll | ftp-proxy/src/thread.c:211-218 | the loop frees all nodes in order, each once, and never meets an empty queue |
| JobQueue.Queue.Clear | ftp-proxy/src/thread.c:202-224 | all nodes are freed in order, each once, and a new semaphore without a token takes the old one's place |
| Ring.Add | ftp-proxy/include/list.h:83-84 | the cycle through the head becomes el followed by the old sequence; only el, the head and its successor change |
| Ring.AddQ | ftp-proxy/include/list.h:86-87 | the cycle becomes the old sequence followed by el |
| Ring.Del | ftp-proxy/include/list.h:110-116 | exactly position i leaves the cycle; the removed link keeps its stale pointers |
| Ring.DelInit | ftp-proxy/include/list.h:118-128 | as before, and the removed link is a ring of its own |
| Ring.Splice | ftp-proxy/include/list.h:89-95 | the other ring's elements come in front of this one's, either of them possibly empty; the other head is untouched |
| Ring.SpliceEndDetached | ftp-proxy/include/list.h:97-108 | a headless ring is appended in its order, also to an empty list |
| Ring.Unlink | ftp-proxy/src/session.c:271-274 | the unlinking of session_remove_from_list removes exactly its element, and leaves a link alone that is in no list |
| Ring.DropAll | ftp-proxy/include/list.h:191-195 | look-ahead iteration that unlinks the current element visits every element once, in order, ends, and leaves an empty ring |
| Ring.MutuallyInverse | ftp-proxy/include/list.h:77 | in a ring `n` and `p` are inverse at every link, and `n` runs through all links, each once, and back to the head |
| PortCommand.IsPortCommand | ftp-proxy/src/utils.c:29-79 | the scan accepts exactly the lines `PORT`, one character, and six fields between commas or dots before the line ends, all but the last with a hexadecimal digit |
| PortCommand.ScanStep | ftp-proxy/src/utils.c:52-70 | one character of the scan does to the fields seen so far what the definition by fields says |
| PortCommand.GeneratePortCommand | ftp-proxy/src/utils.c:81-130 | the destination holds the PORT line of the socket's name, ended by NUL, and its length is returned; a bad argument or a failing getsockname gives -1 or -2 and leaves it unchanged |
| PortCommand.DotsToCommas | ftp-proxy/src/utils.c:111-119 | the text of inet_ntoa is rewritten in place with commas for dots, up to its end |
| PortCommand.Duplicate | ftp-proxy/src/utils.c:152-160 | the copy holds the C string at the offset, cut at the received length, with a NUL behind it |
| PortCommand.ReplaceCommas | ftp-proxy/src/utils.c:162-176 | all commas are counted; the fourth becomes NUL with the port text behind it, the others dots, and nothing else changes |
| PortCommand.CutAtFourth | ftp-proxy/src/utils.c:162-187 | with five commas, the two C strings in the edited buffer are the first four fields joined by dots and the last two |
| PortCommand.ParsePort | ftp-proxy/src/utils.c:195-231 | the pointer loop computes the recursive port reading in 16-bit signed arithmetic, rejections included |
| PortCommand.GetAddressFromPortCommand | ftp-proxy/src/utils.c:132-240 | the parser answers exactly `Parsed` of the argument text, for every buffer |
| PortSpec.OtherCharacter | ftp-proxy/src/utils.c:200-211 | any character but a digit, a line end or a dot makes the port reading fail, wherever it stands |
| PortSpec.ShiftedPort | ftp-proxy/src/utils.c:230-235 | two shift-and-adds in a wrapping 16-bit short give p * 256 + q as 16 unsigned bits, also when the short goes negative |
| PortSpec.PortLoopMeaning | ftp-proxy/src/utils.c:195-235 | for any two fields without dots: accepted if and only if they are digits and line ends, the first is there and both values modulo 2^64 fit a byte; the port is then p * 256 + q |
| PortNumbers.PortNumbersExactly | ftp-proxy/src/utils.c:200-228 | of two port fields of digits, numbers up to 255 are accepted and give p * 256 + q, and a number from 256 up to 2^64 - 1 in either is rejected |
| PortNumbers.ThreePortNumbersExactly | ftp-proxy/src/utils.c:200-235 | three numbers up to 255 with dots between are accepted if and only if the first is 0 or at least 128, by the sign of the short, and give the port of the other two |
| PortNumbers.LargePortIsRejected | ftp-proxy/src/utils.c:207-228 | no line with a port number from 256 up to 2^64 - 1 is parsed, whatever its address |
| PortNumbers.LargeByteIsRejected | ftp-proxy/src/utils.c:187-193 | no line with an address of four numbers, one of them above 255, is parsed |
| PortNumbers.AddressForms | ftp-proxy/src/utils.c:187 | inet_aton takes one to four numbers with weights 16777216, 65536, 256 and 1, the last filling the rest, within their limits, and nothing else |
| PortNumbers.AddressBeforeBlank | ftp-proxy/src/utils.c:187 | it ignores everything from the first blank on |
| PortNumbers.HexNumeral | ftp-proxy/src/utils.c:187 | behind 0x or 0X, each further hexadecimal character counts 16 times what was there and what it stands for |
| PortNumbers.OtherNumeral | ftp-proxy/src/utils.c:187 | behind a zero, each further digit counts 8 times what was there, and else 10 times |
| PortNumbers.PrintedAddress | ftp-proxy/src/utils.c:104 | inet_ntoa prints the bytes of weight 16777216, 65536, 256 and 1 in this order, with dots |
| PortNumbers.PrintedLine | ftp-proxy/src/utils.c:121-129 | the printed line is `PORT`, a blank, those four numbers, the port divided by 256 and its remainder, with commas, and a newline |
| PortNumbers.Characters | ftp-proxy/src/utils.c:52-58 | the characters that are digits, hexadecimal digits, line ends and blanks, one by one |
| PortNumbers.FieldsRecognisedExactly | ftp-proxy/src/utils.c:52-78 | a command of six fields is recognised if and only if each of the first five has one of 0-9, a-f, A-F |
| PortTheorems.WellFormedParses | ftp-proxy/src/utils.c:162-235 | every line of six numbers below 256, in the address as inet_aton reads each (a leading zero means octal), in the port with any leading zeros, and any CR and LF at the end, parses to the address and port so named |
| PortTheorems.DecimalLineParsesExactly | ftp-proxy/src/utils.c:187-235 | a line of six decimal numbers below 256 parses to the address and port they name in decimal if and only if no address field that begins with a zero is worth 8 or more |
| PortTheorems.WellFormedIsRecognised | ftp-proxy/src/utils.c:45-78 | the recogniser accepts every such line |
| PortTheorems.RecogniserAgreesExactly | ftp-proxy/src/utils.c:45-78 | on every single line that the parser takes, the recogniser agrees if and only if the line has no dot and each of the first four fields has a hexadecimal digit |
| PortTheorems.RecogniserAgreesWithoutBlanks | ftp-proxy/src/utils.c:162-221 | on lines without blanks, if and only if there is no dot |
| PortTheorems.DottedLineDisagrees | ftp-proxy/src/utils.c:58-65 | for every address and n, the line a,b,c,d,0.0,n is parsed and not recognised |
| PortTheorems.BlankLineDisagrees | ftp-proxy/src/utils.c:187-193 | a line with a blank that is parsed, three address fields being empty, and not recognised |
| PortTheorems.OversizedFieldWraps | ftp-proxy/src/utils.c:216-228 | a last field of 18446744073709551616 + n is not rejected but read as n |
| PortTheorems.RoundTrip | ftp-proxy/src/utils.c:125-129 | for every 32-bit address and 16-bit port the printed line is recognised, has at most 29 characters and parses back to that address and port |
| Text.SplitJoin | ftp-proxy/src/utils.c:162-176 | splitting at the separator undoes joining, for fields that do not contain it |
| Text.JoinSplit | ftp-proxy/src/utils.c:162-176 | joining undoes splitting, for every text |
| Text.DecimalValue | ftp-proxy/src/utils.c:125 | a printed number reads back as itself, without leading zeros |
| Text.DecimalNumeral | ftp-proxy/src/utils.c:187 | and inet_aton's number reader takes it as decimal |
| Text.LeadingZero | ftp-proxy/src/utils.c:187 | inet_aton's number reader takes decimal digits for what they say if and only if they do not begin with a zero or are worth less than 8, and never for more |
| Packet.PacketWrite | ftp-proxy/src/packet.c:62-77 | the retry loop gives the answer behind all interruptions, and the kernel has taken that prefix of the data |
| Packet.PacketFullWrite | ftp-proxy/src/packet.c:79-111 | the loop computes `FullTransfer`, and the kernel has taken exactly that long a prefix of the buffer |
| Packet.PacketRead | ftp-proxy/src/packet.c:11-26 | as for writing: the bytes are the next of the stream, at the right place, and nothing else in the buffer changes |
| Packet.PacketFullRead | ftp-proxy/src/packet.c:28-60 | the loop computes `FullTransfer`, and the buffer begins with exactly that many next bytes of the stream |
| Packet.TransferMeaning | ftp-proxy/src/packet.c:28-111 | under any script and for any size, the bytes moved are the smaller of the size and what the kernel takes before its first refusal; the result is -1 if and only if an error came first, else that count; the whole size only when all was moved |
| Packet.TransferWithin | ftp-proxy/src/packet.c:96-107 | no more is moved than was asked for |
| Packet.ShortCounts | ftp-proxy/src/packet.c:79-111 | two short counts with an interruption between make one transfer; a failure behind the first gives -1 and the end its count, those bytes having been moved |
| Sockets.Socket.BufferWrite | ftp-proxy/src/session.c:461-491 | the buffer gains the chunk if it fits, its first bytes if it is too long for an empty buffer; the remaining case, a copy past the end, is reported |
| Sockets.Socket.Flush | ftp-proxy/src/session.c:116-127 | the kernel gains a prefix of the pending bytes, the rest is dropped, and the buffer is empty |
| Sessions.Session.constructor | ftp-proxy/src/session.c:184-250 | a new session has its two command sockets, empty, and no data socket |
| Sessions.Session.ServerCommandReceived | ftp-proxy/src/server.c:20-35 | the client's command buffer gains the chunk and nothing else changes |
| Sessions.Session.ServerDataConnectionReceived | ftp-proxy/src/server.c:54-69 | the client's data buffer gains the chunk; without a data socket nothing changes |
| Sessions.Session.ServerListen | ftp-proxy/src/server.c:72-117 | a fresh listening socket becomes the server's data socket |
| Sessions.Session.Rewrite | ftp-proxy/src/server.c:262-271 | a PORT command in the receive buffer is replaced by the PORT line of the new listening socket's name, anything else is kept |
| Sessions.Session.SendCommandToServer | ftp-proxy/src/server.c:222-279 | the server's command buffer gains the text so forwarded |
| Sessions.Session.SendDataToServer | ftp-proxy/src/server.c:249-279 | client data goes to the listening socket as it was before a rewrite |
| Sessions.Session.ClientConnect | ftp-proxy/src/client.c:25-62 | a new data socket towards the dialled address replaces the old one |
| Sessions.Session.InterceptPort | ftp-proxy/src/client.c:79-96 | the proxy dials exactly the parsed address of a recognised command; the session goes when that fails; a command whose argument has no end in the receive buffer is reported |
| Sessions.Session.ClientCommandReceived | ftp-proxy/src/client.c:64-101 | dialling, listening and forwarding together have the effect of `ClientCommand` on the session |
| Sessions.Session.ServerAccept | ftp-proxy/src/server.c:285-322 | the accepted descriptor becomes the connection socket and nothing else changes |
| Sessions.Session.ServerDataClosed | ftp-proxy/src/server.c:388-407 | the connection goes and the listening socket stays |
| Sessions.Session.Pick | ftp-proxy/src/session.c:64-112 | the look-up by role answers the socket that has the descriptor, or none |
| Sessions.Session.WritePacket | ftp-proxy/src/session.c:64-129 | exactly the socket that has the descriptor is flushed, the client's looked up first; the kernel is given the beginning of what was pending on it, as long as its answers let it be, and is not asked if there is no such socket or nothing pending |
| Sessions.Session.IsSocketInSession | ftp-proxy/src/session.c:150-182 | true exactly for the descriptors of the session's sockets, never for a negative one |
| Sessions.Session.FreePeers | ftp-proxy/src/session.c:259-269 | the descriptors closed are those of the command sockets and of the data sockets there are |
| Sessions.Session.ReadPacket | ftp-proxy/src/session.c:401-458 | what was read is dispatched by the role of its descriptor; end and error remove the session, or only the data connection |
| Sessions.Session.Readable | ftp-proxy/src/session.c:350-377 | a readable descriptor is accepted on, if it is the listening one, or read from |
| Sessions.ArgumentInBuffer | ftp-proxy/src/client.c:82 | the copy of a recognised command's argument, its length passed five bytes too long, stays in the cleared receive buffer if and only if the command does not fill it without a NUL; it is then the argument |
| Registry.SessionList.GetSession | ftp-proxy/src/session.c:279-308 | the loop over the ring answers the first session in list order that has the descriptor, or NULL if none has |
| Registry.SessionList.AddSession | ftp-proxy/src/session.c:184-250 | when the client was accepted and the server connected, the new session comes to the front of the list and every other keeps its place and state; when either failed, the list stays as it was |
| Registry.SessionList.RemoveSession | ftp-proxy/src/session.c:252-277 | exactly that session leaves the ring, and with it everything it owns; what client_free and server_free close are its command and data sockets, and not its accepted connection |
| Registry.SessionList.DropAll | ftp-proxy/src/option.c:134-137 | the teardown removes every session exactly once, in list order, leaves an empty list, and closes a descriptor if and only if it is a command or data socket of one of the sessions |
| SessionModel.ClosedByAny | ftp-proxy/src/option.c:134-137 | a teardown closes a descriptor if and only if the removal of one of the sessions does |
| Registry.SessionList.ReadEvent | ftp-proxy/src/session.c:339-377 | looking up, dispatching and removing on the heap have exactly the effect of `Relay.Do` on the list of sessions |
| Registry.SessionList.WriteEvent | ftp-proxy/src/session.c:379-383 | a writable descriptor has the effect of `Relay.Do` on the list of sessions, and the kernel is given what its owner had pending, or is not asked |
| Relay.Find | ftp-proxy/src/session.c:297-303 | the position found has the descriptor and no earlier one has |
| Relay.StepKeepsRegistry | ftp-proxy/src/session.c:310-388 | with fresh descriptors, every event keeps the registry sound: owned descriptors are open, differ within a session and are disjoint between sessions |
| Relay.StepKeepsInv | ftp-proxy/src/session.c:310-388 | every event keeps the registry and the account of every relayed byte |
| Relay.RunKeepsInv | ftp-proxy/src/session.c:310-388 | and so does every run |
| Relay.LookupFindsTheOwner | ftp-proxy/src/session.c:279-308 | in every run every listed session has distinct, open descriptors, and the lookup answers the unique owner of a descriptor if and only if one exists |
| Relay.StreamRelay | ftp-proxy/src/session.c:401-491 | in every run, for a session whose appends stayed in their buffers: written ++ pending = what was read from the server, for commands and for data since the client's data socket was opened, and = what was forwarded to the server, if and only if nothing was lost; the loss is the exact difference |
| Relay.OverrunIsReachable | ftp-proxy/src/session.c:482-488 | for all n and m from 1 to 4096, a run with two reads of n and m bytes from the server, which is overrun if and only if n + m > 4096 |
| Relay.OverreadIsReachable | ftp-proxy/src/client.c:79-84 | for every PORT line the proxy can print, a chunk that begins with it and fills the receive buffer, and a run in which its argument is copied from past the end |
| Limits.AppendExactly | ftp-proxy/src/session.c:461-491 | an append keeps what fits behind what is pending, fills an empty buffer, and else runs past the end; exactly when that is |
| Limits.CommandsForClient | ftp-proxy/src/client.c:132 | two reads from the server overrun a new session's client command buffer if and only if they bring more than 4096 bytes |
| Limits.CommandsForServer | ftp-proxy/src/server.c:130 | as do two reads of no PORT command from the client its server command buffer |
| Limits.DataForClient | ftp-proxy/src/client.c:36 | two reads from a data connection overrun the buffer of a new data socket if and only if they bring more than 32768 bytes |
| Limits.DataForListener | ftp-proxy/src/server.c:82 | as do two reads of client data that of a new listening socket |
| Limits.ReceiveBufferSize | ftp-proxy/src/session.c:404-412 | a read brings 1 to 4096 bytes, and the argument of a PORT command has no end in the buffer if and only if the command has 4096 and no NUL |
| Limits.KernelIsFree | ftp-proxy/src/session.c:310-388 | runs are restricted to new descriptors, reads of 1 to 4096 bytes, names of 32 and 16 bits, and nothing else |
| Limits.PortFailures | ftp-proxy/src/server.c:263-276 | with no listening socket the client's own PORT line goes to the server, with none but its name failing nothing goes, and when the client cannot be dialled the session goes |
| Transfers.GreetingArrives | ftp-proxy/src/session.c:310-388 | a run in which what the server says, any 1 to 4096 bytes, arrives at the client |
| Transfers.DataArrives | ftp-proxy/src/client.c:79-98 | a run of a whole transfer, for all addresses and any bytes: the client names its port, the server is told the proxy's, connects, and what it sends arrives at the port that the client named |
| Transfers.SecondPortLeaks | ftp-proxy/src/client.c:49 | a run in which a second PORT leaves the two sockets of the first open with no owner |
| Relay.FlushLossExactly | ftp-proxy/src/session.c:116-127 | a flush loses exactly what exceeds the bytes the kernel takes before its first refusal |
| Relay.TransmitsExactly | ftp-proxy/src/session.c:116-127 | what reaches the kernel at a writable event is the beginning of what was pending, as much as the kernel takes before its first refusal, and that is what the history of the socket gains |
| Relay.PickedIsTheOwner | ftp-proxy/src/session.c:64-112 | in every run the socket picked for a descriptor is the one of the session that has it, in whatever role |
| Relay.NothingCrossesSessions | ftp-proxy/src/session.c:339-383 | corollary of LookupFindsTheOwner: in every run an event leaves each session that does not own its descriptor as it was, in its place |
| Relay.WriteFlushesTheOwner | ftp-proxy/src/session.c:64-129 | in every run the look-up by role comes to the same as flushing whichever socket has the descriptor, and no other |
| Backlogs.LoadsAreExact | ftp-proxy/src/session.c:461-491 | for every run and session, overrun is set if and only if, by the events, some text did not fit behind what was queued since the last writable event of its socket, or was copied from past the receive buffer; until then each socket has pending and has lost exactly what the events say |
| Backlogs.CommandBacklogs | ftp-proxy/src/session.c:116-127 | for every run and session, in closed form: of each command channel, what waits is what was read for it since the last writable event of the socket it is written to, and what is lost is the sum of what those events fell short |
| Backlogs.DeliveryIsTold | ftp-proxy/src/session.c:64-129 | so whether each channel has delivered all that was read for it is told by the events: if nothing overran, if and only if no writable event found more waiting than the kernel took |
| Backlogs.LosslessExactly | ftp-proxy/src/session.c:116-127 | a writable event loses nothing if and only if what waits is at most what the kernel takes before its first refusal |
| Backlogs.LossIsReachable | ftp-proxy/src/session.c:123-126 | a run in which a failing flush loses a byte |
| Leaks.LeaksExactly | ftp-proxy/src/session.c:252-388 | every event leaves open and unowned what was so before and exactly: an old accepted connection, when another is accepted or its session goes; an old data socket, when another is dialled; an old listening socket, when another listens |
| Traffic.ReadableHears | ftp-proxy/src/session.c:431-455 | bytes read from the server's descriptor, and only those, go to the client's channel; what is forwarded for bytes from the client's, to the server's, and the address they parse to is dialled; bytes from the accepted connection, to the data channel; and descriptors change as the tracker says |
| Traffic.Origin | ftp-proxy/src/session.c:310-388 | every session behind an event is new, or is one from before: unchanged if it does not own the event's descriptor, else what its handler makes of it |
| Traffic.HistoriesAreTraffic | ftp-proxy/src/session.c:310-388 | for every run and session, the histories used above, the addresses dialled and the descriptors of its data channel are what the run's events alone say, also when descriptors are used again |
| Traffic.EndToEnd | ftp-proxy/src/session.c:310-491 | for every run and session without an overrun: the client was sent, or has pending, exactly what the events read from its server; its data socket, what they read from accepted connections since it was dialled; the server, what was forwarded for the reads from the client; in order, and complete if and only if no flush lost bytes. If those reads were steady and their PORT commands got listening sockets, what was forwarded is the whole text that the client said, line by line, with each PORT line rewritten to the name of its socket and nothing else changed; in any case the bytes said are accounted for as sent, pending, lost, replaced or dropped |
| Traffic.LedgerBalances | ftp-proxy/src/server.c:262-276 | over any run, what was forwarded is what the client said, less what PORT lines replaced and dropped, plus the proxy's own lines |
| Traffic.StreamIsRewritten | ftp-proxy/src/server.c:262-276 | over any run with such reads, the text forwarded is the text said with its PORT lines rewritten, in order |
| Traffic.CommandVanishes | ftp-proxy/src/server.c:263-269 | for every printed PORT line and any text behind it in the chunk, a run with no overrun and no loss in which the server is sent the proxy's line alone |
| Traffic.CutLineReachesTheServer | ftp-proxy/src/client.c:79-98 | for every well-formed PORT line and every cut in front of its last field, a run in which the line comes in two reads and reaches the server unchanged, nothing being dialled |
| Relay.PortTransaction | ftp-proxy/src/client.c:79-98 | for one well-formed PORT line, with the kernel's calls succeeding and room for 29 bytes: exactly the named address is dialled, the server's buffer gains exactly one line that is recognised and parses to the proxy's own listening address, and nothing else changes; but for a line of exactly the receive buffer's size, which is not read in bounds |
| Relay.OtherChunksPass | ftp-proxy/src/server.c:262-276 | the other case of PortTransaction: a chunk that is no PORT command and fits is appended byte for byte and changes nothing else |
| Rewriting.RewritesExactly | ftp-proxy/src/server.c:262-271 | what is forwarded for a single chunk is that chunk's rewriting line by line, for all names of the listening socket, if and only if no line of it is a PORT command and it is not taken for one, or it is one line that is |
| Streams.RewritesAtEveryRead | ftp-proxy/src/server.c:262-276 | for every sequence of reads: after each of them, what has been forwarded is the rewriting line by line of the text so far, for all names, if and only if the reads are steady (`Continues`): none cuts a PORT line or its line ends, and each taken for a PORT command is one, but for one shape, stated there, in which two faults make up for each other |
| Streams.RewritesInTheEnd | ftp-proxy/src/server.c:262-276 | for every sequence of reads, what is forwarded in the end is the rewriting of the whole text, for all names, if and only if the names stand in the same places of both |
| Streams.NamesTellPlaces | ftp-proxy/src/utils.c:121-127 | two texts with places for PORT lines are the same for all names that can be written there if and only if their places are |
| Streams.OneMoreChunk | ftp-proxy/src/server.c:262-276 | one more read keeps what is forwarded and the rewriting of the text the same if and only if it may follow the last line of what was said |
| Streams.CleanReadsAreSteady | ftp-proxy/src/server.c:262-276 | reads are steady if each begins with no line end, ends with one, and brings one PORT line or only other lines |
| Streams.CutLineIsNotSteady | ftp-proxy/src/client.c:79-98 | a well-formed PORT line in two reads is not steady, wherever it is cut |
| Streams.SteadyReadsForward | ftp-proxy/src/server.c:262-276 | what is forwarded for steady reads whose PORT commands got listening sockets is the text they make up with its PORT lines rewritten, in order, to the names of those sockets |
| Rewriting.RestVanishes | ftp-proxy/src/utils.c:52-70 | behind a recognised line, any text after its end is dropped: what is forwarded is the proxy's line |
| Rewriting.UnnamedVanishes | ftp-proxy/src/server.c:266-276 | without a name for the listening socket a recognised chunk is dropped as a whole |
| Rewriting.SolidCounts | ftp-proxy/src/utils.c:52-70 | what counts as dropped of a text is all of it but its CR and LF |
| Rewriting.DropsExactly | ftp-proxy/src/utils.c:52-70 | a recognised chunk drops nothing but line ends if and only if only line ends follow its first line; without NULs, the condition of RewritesExactly holds if and only if the chunk drops nothing and hides no PORT command |
| Rewriting.FirstLineDecides | ftp-proxy/src/utils.c:45-52 | the recogniser answers for a chunk what it answers for its first line, unless a line end is the fifth character, which it skips |
| Rewriting.CutLine | ftp-proxy/src/server.c:262-271 | for every well-formed PORT line and every cut: in front of the last field both parts are forwarded as they are, behind it the first becomes the proxy's line and the second follows it |
| Rewriting.CutLineDials | ftp-proxy/src/client.c:79-96 | a well-formed PORT line cut in its last field, at any digit, is recognised and parsed, from its first part, to the address and the port that the digits before the cut name |

## Left out

- PoolShutdown.ClearedAfterLastExit: assumes that all workers had registered when the shutdown began; `FreedAfterLastExitExactly` has both directions.
- Sessions.Session.InterceptPort: what a copy past the receive buffer brings in is not modelled; the session is marked `overrun`.
- Registry.SessionList.RemoveSession: takes the link of a listed session; of one that failed half-way, `AddSession` says that the list stays as it was. Freeing the memory is leaving what the list owns.
- PoolProgress.RunsComplete: says nothing about a run that ends in the null front of an empty pull, because the code as written does not survive it; `AllJobsFinish` leaves that out where it cannot happen.
- Relay.StreamRelay: claims nothing for a session once an append was copied past a buffer, and not for the channel from client data to the listening socket, where the code sends it to the wrong socket.
- Sessions.Session.ReadPacket: the read itself is its result, a byte count or an error, with the bytes already in the buffer.
- Calls of `thread_pool_add_work` and `thread_pool_wait` during or after `thread_pool_free`, which frees the pool under them, and more than one waiter at a time.
- `pthread_cond_signal` waking more than one sleeper is covered as a signal and spurious wakeups; the two loops of `thread_pool_free` do the same and are one; its timing, mutex and condition variable internals and thread naming are not modelled.
- Allocation failures and the paths behind them, among them a socket freed by `client_connect` while the client still points to it.
- Failures of `socket_add_to_epoll` after a socket was made, `accept` failing with EINPROGRESS, and events that are both readable and writable: these are two events in a row.
- `packet_full_write` and `packet_full_read` keep their test for an answer larger than asked for, but the kernel of the model never gives one.
- Left shift of a negative or overflowing `short` is taken to wrap, as common compilers have it.
- The client and server structures are flattened into their session; host addresses appear only as the name of the listening socket.
- `socket.c`, `log.c`, the configuration in `option.c`, `server_insert_address` and start-up in `main.c`: wrappers over library calls and console text.
- `server_get_available_address` always answers the head of the list; no balancing is claimed.
- LIST_ELEM pointer arithmetic: a link refers to its enclosing structure by a field.
- Jobs that do not return: the job that `main.c:83` pushes loops until an error, so for the proxy as it is started `AllJobsFinish` says something only when that loop ends.
