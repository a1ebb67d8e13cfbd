# VolCom in Dafny

A model of the decision-making code of the VolCom volunteer-computing system and
of the FAT12 tools beside it, with machine-checked proofs. Check it with
`dafny verify dfyconfig.toml` (Dafny 4.11).

## What is modelled

- **Employer** (`EmployerState`, `EmployerInvariants`, `EmployerLoad`,
  `EmployerCounters`, `EmployerClocks`, `EmployerProgress`, `EmployerLoop`). The
  class `Employer` has the employer's two tables as fields and its phases as
  loops; every loop body is one *step*, labelled with what the environment decided
  (did the send get through, what did a peer send, what does the clock say).
  Theorems hold for every sequence of steps, in any order, and so for the main
  loop, which is proved to be such a sequence. A ghost log records sends, timeouts,
  completions and the life of connections.
- **Blocking buffer** (`BoundedQueue`, `Monitor`, `MonitorCalls`, `TaskBuffer`).
  One step of the monitor is everything a thread does between getting the mutex
  and giving it up. `TaskBuffer` is the ring of eight slots that takes these steps;
  `AgentRing` is the non-blocking ring with the opposite head/tail convention,
  used for both the task buffer and the result queue. Both perform the same
  abstract bounded queue.
- **Response scanner** (`JsonText`, `Scanner`, `Response`). RFC 8259 texts are
  the printed forms, with white space around them, of a tree that records the white
  space inside and the spelling; the scanner is measured against them.
- **Wire protocol** (`Frames`, `Framing`, `Sessions`). Length-prefixed metadata
  and payload over a stream that reaches the reader in arbitrary pieces and may
  break off anywhere.
- **Chunk scheduler** (`Scheduler`, `SchedulerProofs`, `SchedulerTables`,
  `SchedulerLife`, `Selection`). The two arrays, their in-place operations, what
  becomes of the chunks, and the four selection policies.
- **FAT12** (`Fat`, `FatImage`, `BootLoader`). The reader's packed entries and
  chain loop, the layout of a volume, and the boot loader's 16-bit arithmetic for
  the same disk.
- **Configuration file** (`Config`, `ConfigScan`, `Decimal`). The printer and the
  `scanf`-based parser.

`Bytes`, `Arithmetic`, `Search` and `Options` hold what several modules share.

Sends, receives, file opens, arrivals and clock readings are parameters of the
methods and range over everything. What cJSON finds in a piece of metadata is a
parameter `parse`; all that is assumed of it is that the empty text is not JSON.

## Where code and documentation differ

The model follows the code.

- `src/uspacehelper/volcom_agents/README_Technical.md` describes distribution by
  `distribute_new_tasks`, round-robin. That function is not called; the main loop
  gives each waiting entry to the first employee with room.
- `src/uspacehelper/volcom_scheduler/README.md` says the deadline policy favours
  work close to its deadline. The score grows with the time remaining, which is
  the task's and not the candidate's, so it says nothing about the task. While the
  clock shows the same time, lightly loaded candidates are preferred before the
  deadline, the first at the deadline, and the most loaded after it
  (`Selection.ChoiceMeetsGoal`). The clock is read again for each candidate, and
  when it moves on in between a loaded one can win (`Selection.ClockTicks`).
- The worker accepts responses that start with `[`, but the scanner reports an
  array complete at the end of the first object inside it
  (`Scanner.StopsInside`).
- The loader's comment gives 134 as the size of the root directory; the sum 33 it
  arrives at, and its constant 31, are right for 14 sectors
  (`BootLoader.StepsAgree`).

Some intended properties do not hold on all inputs; for these the exact condition
is proved: `EmployerCounters.LoadStepExact`, `EmployerCounters.AssignAndSendExact`,
`Scanner.CompletesExactlyOnObjects`, `Selection.GoalMetExactly`,
`Scheduler.PartitionExact`, `SchedulerProofs.CreateConsistentExactly`,
`Fat.OutputFitsExactly`, `BootLoader.LbaToChs`, `Config.SaveLoadStable`.

## Model

| member | source | states |
|---|---|---|
| EmployerInvariants.DeliveryAccounting | src/uspacehelper/volcom_agents/employer/volcom_employer.c:172-272 | in every run of steps, whatever sends, peers and clocks do: attempts = retry_count + 1 if in flight, successful sends = timeouts + 1 if in flight, so a task gets through at most once more than it timed out |
| EmployerInvariants.NothingAfterFinish | src/uspacehelper/volcom_agents/employer/volcom_employer.c:480-492 | in every run, once a task has finished it is never sent, timed out or finished again |
| EmployerInvariants.RunKeepsTables | src/uspacehelper/volcom_agents/employer/volcom_employer.c:172-272 | every run only appends to the history; task ids stay and a completed assignment never changes again |
| EmployerInvariants.ConfigOncePerConnection | src/uspacehelper/volcom_agents/employer/volcom_employer.c:93-106 | in every run, across failures and reconnects, a connection carries at most one completed initial_config and every data chunk comes after it |
| EmployerInvariants.EmployeesWellFormed | src/uspacehelper/volcom_agents/employer/volcom_employer.c:60-151 | in every run there are at most 100 employees, their addresses are pairwise distinct and active_tasks stays between 0 and 3 |
| EmployerInvariants.SweepKeepsRecent | src/uspacehelper/volcom_agents/employer/volcom_employer.c:60-84 | the swap-with-last sweep keeps every recently seen employee exactly as often as before and drops every stale one, and terminates |
| EmployerInvariants.StepKeepsInv | src/uspacehelper/volcom_agents/employer/volcom_employer.c:636-761 | each loop body of each phase keeps the whole invariant: table shape, delivery ledger, trace order, and that a connected CONFIGURED employee's connection was configured |
| EmployerLoad.LoadConserved | src/uspacehelper/volcom_agents/employer/volcom_employer.c:715-740 | after any number of fault-free rounds active_tasks equals the number of sent, uncompleted assignments of that employee, hence at most 3 outstanding |
| EmployerLoad.ClaimsStepExact | src/uspacehelper/volcom_agents/employer/volcom_employer.c:478-492 | from counters equal to the claims on each employee (tasks sent to it or waiting in its name), a step keeps them equal if and only if it is harmless; after a harmless step they are the numbers of sent, uncompleted tasks if and only if no waiting task names an employee |
| EmployerCounters.LoadStepExact | src/uspacehelper/volcom_agents/employer/volcom_employer.c:478-492 | if every active_tasks is the number of that employee's sent, uncompleted tasks, a step keeps it so if and only if it is none of: an assignment, a send that gets through, a result credited to the wrong employee, the return of an employee dropped while it had tasks; told from the state before the step |
| EmployerCounters.AssignAndSendExact | src/uspacehelper/volcom_agents/employer/volcom_employer.c:715-740 | assigning and sending from a round boundary leave the counters exact if and only if every send that is tried gets through |
| EmployerLoad.FailedSendOvercounts | src/uspacehelper/volcom_agents/employer/volcom_employer.c:196-214 | a send that was tried and failed leaves active_tasks above the number of sent, uncompleted tasks |
| EmployerLoad.RoundKeepsBoundary | src/uspacehelper/volcom_agents/employer/volcom_employer.c:686-743 | one fault-free round takes a state with exact counters and unclaimed waiting tasks to another |
| EmployerClocks.TimesOutExactly | src/uspacehelper/volcom_agents/employer/volcom_employer.c:236-272 | in every run a task is taken back exactly when it is with somebody, not finished, and the clock at its last assignment is more than 300 seconds past; otherwise nothing changes |
| EmployerClocks.NothingTimesOutEarly | src/uspacehelper/volcom_agents/employer/volcom_employer.c:727-727 | a run that is over within 300 seconds of its first assignment records no timeout |
| EmployerClocks.DroppedExactly | src/uspacehelper/volcom_agents/employer/volcom_employer.c:60-84 | in every run stale removal drops exactly the employees whose last broadcast is more than 15 seconds past |
| EmployerClocks.RecordsTrue | src/uspacehelper/volcom_agents/employer/volcom_employer.c:480-484 | in every run the employee, the times and the completion recorded for a task are those of its last assignment and of the result that finished it |
| EmployerClocks.ReliabilityCounts | src/uspacehelper/volcom_agents/employer/volcom_employer.c:253-261 | in every run an employee's reliability is 100 less 10 for every task it let time out since it joined |
| EmployerClocks.LiveConnectionStays | src/uspacehelper/volcom_agents/employer/volcom_employer.c:195-212 | in every step a live connection stays as it is unless the step fails on it, and is then closed |
| EmployerClocks.HeardIsConnected | src/uspacehelper/volcom_agents/employer/volcom_employer.c:87-151 | an employee that broadcasts and can be reached has a connection afterwards: the one it had, or a new one to be configured |
| EmployerClocks.SentToNamed | src/uspacehelper/volcom_agents/employer/volcom_employer.c:178-194 | a data chunk goes out on the connection of the employee that the entry names |
| EmployerProgress.NoRoomWasted | src/uspacehelper/volcom_agents/employer/volcom_employer.c:715-740 | after assigning and sending without failure a task is left waiting only if every employee is busy, and every task given away has been sent |
| EmployerProgress.RoundProgresses | src/uspacehelper/volcom_agents/employer/volcom_employer.c:636-761 | a round in which nothing goes wrong brings a task back if anybody has one, leaves everybody configured, and leaves a task waiting only if all are busy: room made by a result or a newcomer is used in the same round |
| EmployerProgress.AllTasksComeBack | src/uspacehelper/volcom_agents/employer/volcom_employer.c:580-761 | if nothing goes wrong and everybody with tasks returns one per round, every task is completed after at most one round more than there are tasks, however many employees join |
| EmployerLoop.Employer.constructor | src/uspacehelper/volcom_agents/employer/volcom_employer.c:553-577 | the table starts with one unsent, unassigned, uncompleted entry per file found, up to 1000 |
| EmployerLoop.Employer.AddTaskAssignment | src/uspacehelper/volcom_agents/employer/volcom_employer.c:154-170 | appends exactly when there is room, otherwise refuses and changes nothing |
| EmployerLoop.Employer.AddOrUpdateEmployee | src/uspacehelper/volcom_agents/employer/volcom_employer.c:87-151 | is exactly the discovery step of the run theorems |
| EmployerLoop.Employer.ReceiveResult | src/uspacehelper/volcom_agents/employer/volcom_employer.c:480-494 | is exactly the result step: completes the first open task of that name and credits the sender |
| EmployerLoop.Employer.ReceiveFrom | src/uspacehelper/volcom_agents/employer/volcom_employer.c:689-695 | is exactly one receive step: a lost connection is closed, a result is booked, anything else changes nothing |
| EmployerLoop.Employer.SendInitialConfig | src/uspacehelper/volcom_agents/employer/volcom_employer.c:703-710 | is exactly one configure step: only a connected new employee is configured, and a failure closes its connection |
| EmployerLoop.Employer.AssignTask | src/uspacehelper/volcom_agents/employer/volcom_employer.c:717-735 | is exactly one assign step: a waiting entry goes to the first connected, configured employee with fewer than 3 active |
| EmployerLoop.Employer.SendTask | src/uspacehelper/volcom_agents/employer/volcom_employer.c:178-214 | is exactly one send step: success marks the entry sent, failure counts a retry and closes the connection |
| EmployerLoop.Employer.ExpireTask | src/uspacehelper/volcom_agents/employer/volcom_employer.c:244-267 | is exactly one expiry step: an overdue entry is taken back, counts a retry and relieves its employee |
| EmployerLoop.Employer.ReceiveResults | src/uspacehelper/volcom_agents/employer/volcom_employer.c:686-698 | is exactly one receive step per employee, in table order |
| EmployerLoop.Employer.SendInitialConfigs | src/uspacehelper/volcom_agents/employer/volcom_employer.c:700-713 | is exactly one configure step per employee, in table order |
| EmployerLoop.Employer.AssignTasks | src/uspacehelper/volcom_agents/employer/volcom_employer.c:715-736 | is exactly one assign step per table entry, in order |
| EmployerLoop.Employer.SendPendingTasks | src/uspacehelper/volcom_agents/employer/volcom_employer.c:172-219 | is exactly one send step per table entry, and the count returned is the number of sends that got through |
| EmployerLoop.Employer.HandleTaskTimeouts | src/uspacehelper/volcom_agents/employer/volcom_employer.c:236-272 | is exactly one expiry step per table entry, and the count returned is the number of timeouts recorded |
| EmployerLoop.Employer.RemoveStaleEmployees | src/uspacehelper/volcom_agents/employer/volcom_employer.c:60-84 | is exactly the stale-removal step |
| EmployerLoop.Employer.CountCompletedTasks | src/uspacehelper/volcom_agents/employer/volcom_employer.c:221-234 | counts the completed entries of the table |
| EmployerLoop.CountReachesTotal | src/uspacehelper/volcom_agents/employer/volcom_employer.c:756-760 | the count reaches the table size if and only if every task is completed |
| EmployerLoop.Employer.RunRound | src/uspacehelper/volcom_agents/employer/volcom_employer.c:636-761 | one pass of the main loop is the seven phases in order; it reports completion if and only if there are tasks and all are completed |
| EmployerLoop.Employer.MainLoop | src/uspacehelper/volcom_agents/employer/volcom_employer.c:580-761 | the loop is a sequence of rounds and stops of its own accord exactly after the first round with which every task has come back |
| EmployerLoop.MainLoopSafe | src/uspacehelper/volcom_agents/employer/volcom_employer.c:580-761 | the invariant of all runs holds after every number of rounds of the main loop |
| BoundedQueue.FifoConservation | src/uspacehelper/volcom_agents/task_management.c:26-50 | over every sequence of adds and gets: items accepted = items handed out followed by the contents, in order, within capacity |
| BoundedQueue.UnrollPush | src/uspacehelper/volcom_uscheduler/volcom_uscheduler.c:27-29 | writing the free slot of a ring appends to the queue it represents, through wraparound |
| BoundedQueue.UnrollPop | src/uspacehelper/volcom_uscheduler/volcom_uscheduler.c:45-47 | advancing the read index removes the oldest element, through wraparound |
| BoundedQueue.AgentRing.constructor | src/uspacehelper/volcom_agents/task_management.c:7-17 | an initialised ring of any capacity, zero included, is the empty queue |
| BoundedQueue.AgentRing.Put | src/uspacehelper/volcom_agents/task_management.c:26-37 | the head-writes ring performs the queue's add: refuses exactly when full, else appends; history is conserved (task buffer and result queue alike) |
| BoundedQueue.AgentRing.Get | src/uspacehelper/volcom_agents/task_management.c:39-50 | performs the queue's take: the oldest item or nothing; history is conserved |
| BoundedQueue.AgentRing.IsEmpty | src/uspacehelper/volcom_agents/task_management.c:52-57 | true exactly when the queue holds nothing |
| Monitor.NeverLosesWakeup | src/uspacehelper/volcom_uscheduler/volcom_uscheduler.c:18-52 | in every interleaving with barging and spurious wakeups: a sleeping consumer implies count is at most the number of signalled, not yet resumed consumers, and dually for producers and free slots |
| Monitor.NeverBothStuck | src/uspacehelper/volcom_uscheduler/volcom_uscheduler.c:18-52 | producers and consumers asleep together implies at least 8 signalled threads on their way |
| Monitor.SleepersCannotProceed | src/uspacehelper/volcom_uscheduler/volcom_uscheduler.c:23-25 | when nobody is waiting for the mutex, sleeping consumers mean an empty buffer, sleeping producers a full one, never both |
| Monitor.WokenThreadsSettle | src/uspacehelper/volcom_uscheduler/volcom_uscheduler.c:41-43 | left alone, woken threads come to rest after boundedly many resumptions, and then no sleeper could proceed |
| Monitor.AlwaysSettles | src/uspacehelper/volcom_uscheduler/volcom_uscheduler.c:18-52 | from every reachable state the woken threads can run to rest |
| Monitor.Fifo | src/uspacehelper/volcom_uscheduler/volcom_uscheduler.c:27-47 | in every interleaving, enqueued items = dequeued items followed by the buffer |
| Monitor.RefinesBoundedQueue | src/uspacehelper/volcom_uscheduler/volcom_uscheduler.c:18-52 | the blocking buffer performs, on the same bounded queue as the non-blocking rings, one operation for every section a thread runs, in order |
| Monitor.StepKeepsInv | src/uspacehelper/volcom_uscheduler/volcom_uscheduler.c:18-52 | each mutex-held section keeps the no-lost-wakeup invariant |
| MonitorCalls.NoCallLost | src/uspacehelper/volcom_uscheduler/volcom_uscheduler.c:18-52 | in every interleaving the number of enqueue calls is the items that went in plus the producers asleep or woken, and dually for dequeue: no call ends without its item |
| MonitorCalls.EveryItemGoesIn | src/uspacehelper/volcom_uscheduler/volcom_uscheduler.c:18-34 | in every interleaving the items a thread brings go in one after the other, and the one not yet in is the one it is waiting with |
| TaskBuffer.TaskBuffer.constructor | src/uspacehelper/volcom_uscheduler/volcom_uscheduler.c:3-9 | an initialised buffer is the monitor's initial state |
| TaskBuffer.TaskBuffer.EnqueueSection | src/uspacehelper/volcom_uscheduler/volcom_uscheduler.c:23-32 | the ring code from acquiring the mutex to giving it up is the monitor's enqueue section |
| TaskBuffer.TaskBuffer.DequeueSection | src/uspacehelper/volcom_uscheduler/volcom_uscheduler.c:41-50 | the same for dequeue, handing out the oldest item |
| TaskBuffer.TaskBuffer.Enqueue | src/uspacehelper/volcom_uscheduler/volcom_uscheduler.c:18-34 | a call is the monitor's enqueue step; it puts its item in exactly if there is room, and otherwise sleeps with it |
| TaskBuffer.TaskBuffer.ResumeEnqueue | src/uspacehelper/volcom_uscheduler/volcom_uscheduler.c:23-34 | a woken producer's turn is the monitor's resume step: its item goes in exactly if there is room, and otherwise it sleeps with it again |
| TaskBuffer.TaskBuffer.Dequeue | src/uspacehelper/volcom_uscheduler/volcom_uscheduler.c:36-52 | a call is the monitor's dequeue step; it takes the oldest item exactly if there is one, and otherwise sleeps |
| TaskBuffer.TaskBuffer.ResumeDequeue | src/uspacehelper/volcom_uscheduler/volcom_uscheduler.c:41-52 | a woken consumer's turn is the monitor's resume step; it takes the oldest item exactly if there is one, and otherwise sleeps again |
| TaskBuffer.TaskBuffer.Size | src/uspacehelper/volcom_uscheduler/volcom_uscheduler.c:70-76 | the size reported is items enqueued minus items dequeued, at most 8 |
| Scanner.CompletesExactlyOnObjects | src/uspacehelper/volcom_agents/employee/volcom_employee.c:168-204 | for every JSON text of RFC 8259, white space around the value included, any spelling: the scanner completes exactly at the last byte if and only if the text is an object with no white space after it, and completes at all if and only if an object occurs in it |
| Scanner.ObjectCompletes | src/uspacehelper/volcom_agents/employee/volcom_employee.c:186-203 | an object text after any white space completes at its last byte and not earlier |
| Scanner.SkipsString | src/uspacehelper/volcom_agents/employee/volcom_employee.c:172-184 | a whole string leaves the scan state unchanged, whatever braces, quotes and backslashes it holds |
| Scanner.SkipsValue | src/uspacehelper/volcom_agents/employee/volcom_employee.c:186-204 | a value inside an open object, or one without objects, leaves the scan state unchanged |
| Scanner.StopsInside | src/uspacehelper/volcom_agents/employee/volcom_employee.c:195-201 | an array that contains an object is reported complete before its end |
| Response.Receive | src/uspacehelper/volcom_agents/employee/volcom_employee.c:130-217 | the buffer holds the bytes of all reads made, cut at its size, zero-terminated; reads stop at the first after which a fold over all bytes has completed or the room is used up; never more than buffer_size - 1 bytes; terminates |
| Response.ScanNew | src/uspacehelper/volcom_agents/employee/volcom_employee.c:168-204 | scanning only the new bytes gives the state of one pass over all of them, also when it stops early |
| Response.Store | src/uspacehelper/volcom_agents/employee/volcom_employee.c:158-166 | appends the read, cut off at the room left |
| Response.ObjectReceivedWhole | src/uspacehelper/volcom_agents/employee/volcom_employee.c:142-217 | a response that is one object and fits is received whole, in whatever chunks it arrives and whatever white space follows, by the read that brings its last byte |
| Response.ChunkingIndependent | src/uspacehelper/volcom_agents/employee/volcom_employee.c:142-204 | two ways of cutting the same bytes leave the same scan state |
| Frames.NetworkRoundTrip | src/uspacehelper/volcom_net/protocol.c:24-25 | 32-bit lengths survive the trip through network byte order, the highest byte first |
| Frames.FramesUnambiguous | src/uspacehelper/volcom_net/protocol.c:20-39 | if the encoding of one message sequence begins another's, the sequences do too |
| Framing.RecvJson | src/uspacehelper/volcom_net/protocol.c:41-72 | accepts only the frame at the stream position and moves just past it; an acceptable frame is refused only if its header had arrived in part |
| Framing.RecvJsonPeek | src/uspacehelper/volcom_net/protocol.c:210-245 | reports only the frame at the position, without moving; an acceptable frame is not reported only if it had arrived in part |
| Framing.PeekThenReceive | src/uspacehelper/volcom_agents/employee/volcom_employee.c:594-665 | a successful peek and the receive after it see the same text, and the position is then at the next frame; an acceptable frame is not peeked only if it had arrived in part |
| Framing.RecvSized | src/uspacehelper/volcom_agents/employee/volcom_employee.c:732-773 | takes a sized payload off the stream if its size is within the limits, and otherwise says how far it got |
| Framing.ReceiveTask | src/uspacehelper/volcom_agents/employee/volcom_employee.c:690-795 | an announced message is received whole with the position just past it, or the stream ends inside it |
| Sessions.SendJson | src/uspacehelper/volcom_net/protocol.c:20-39 | success puts the whole frame on the stream, failure a beginning of it; it fails exactly when a send does |
| Sessions.SendBlocks | src/uspacehelper/volcom_agents/employer/volcom_employer.c:380-400 | the block loop sends the file once, in order; it fails exactly when a send does, leaving a beginning of the file |
| Sessions.SendMessage | src/uspacehelper/volcom_agents/employer/volcom_employer.c:342-410 | success puts exactly the encoding of metadata and file on the stream; it fails only if the file does not open or a send fails, leaving a beginning of it |
| Sessions.SendSession | src/uspacehelper/volcom_agents/employer/volcom_employer.c:188-212 | a connection used until its first failure carries a beginning of the encoding of its messages that covers all those reported sent; all are, unless a file does not open or a send fails |
| Sessions.BreaksOffAfterReported | src/uspacehelper/volcom_agents/employer/volcom_employer.c:188-212 | a stream that carries what a sender reported as sent breaks off inside a message only after those |
| Sessions.ReceiveNext | src/uspacehelper/volcom_agents/employee/volcom_employee.c:592-668 | one readable event takes exactly the next message off the stream; a message the stream holds whole is not taken only if its metadata had arrived in part |
| Sessions.EmployeeSession | src/uspacehelper/volcom_agents/employee/volcom_employee.c:576-687 | for any messages within the limits, any cutting of reads and any break of the stream: the accepted messages are a prefix of those sent, each ends at a frame boundary, and it stops only when all are accepted, the stream breaks off inside the next one, or the next one's metadata had arrived in part |
| Sessions.TakePayload | src/uspacehelper/volcom_agents/employer/volcom_employer.c:433-475 | the discard path leaves the stream where the save path does, and neither fails on a payload that is there whole |
| Sessions.ReceiveResult | src/uspacehelper/volcom_agents/employer/volcom_employer.c:412-494 | a result the stream holds whole is taken off it, saved or thrown away, unless its length field had arrived in part; only a complete one is saved |
| Sessions.ResultSession | src/uspacehelper/volcom_agents/employer/volcom_employer.c:412-494 | over a whole connection the results saved are exactly those of the first ones sent whose file could be opened; it stops only when all are handled, the stream breaks off inside the next one, or the next one's length field had arrived in part |
| Sessions.OpenedExactly | src/uspacehelper/volcom_agents/employer/volcom_employer.c:433-475 | the results saved are just those whose file could be opened, in the order they were sent |
| Scheduler.PartitionExact | src/uspacehelper/volcom_scheduler/task_scheduler.c:134-155 | the chunks made are a partition of the file into pieces of at most chunk_size if and only if the 64-bit sum does not wrap, the quotient fits an int and the table has room, and then there are ceil(size / chunk_size); they cover it if and only if the converted count is positive and fits the room |
| Scheduler.PiecesContiguous | src/uspacehelper/volcom_scheduler/task_scheduler.c:145-147 | each chunk begins where the one before it ends, the last ending at the file size, and has at least 1 byte; at most chunk_size if and only if it is not the last or the count lost no bits |
| Scheduler.CountLosesBits | src/uspacehelper/volcom_scheduler/task_scheduler.c:135-147 | a file of 2^32 + 1 bytes in chunks of one byte becomes one chunk of the whole file |
| Scheduler.ChunkIdInjective | src/uspacehelper/volcom_scheduler/task_scheduler.c:140 | a chunk's name determines its task and its index, whatever the task's name contains |
| SchedulerProofs.AddKeepsConsistent | src/uspacehelper/volcom_scheduler/task_scheduler.c:37-54 | adding a task of a new name keeps ids distinct and every chunk owned |
| SchedulerProofs.RemoveKeepsConsistent | src/uspacehelper/volcom_scheduler/task_scheduler.c:56-83 | removing a task is an order-preserving filter of both tables and leaves no orphan chunk |
| SchedulerProofs.CreateConsistentExactly | src/uspacehelper/volcom_scheduler/task_scheduler.c:121-160 | chunking keeps chunk names distinct if and only if no index is made twice, which a task chunked for the first time guarantees |
| SchedulerProofs.AssignKeepsConsistent | src/uspacehelper/volcom_scheduler/task_scheduler.c:175-189 | assigning keeps the tables consistent |
| SchedulerProofs.CompleteKeepsConsistent | src/uspacehelper/volcom_scheduler/task_scheduler.c:191-203 | completing keeps the tables consistent |
| SchedulerProofs.HandsOutEachOnce | src/uspacehelper/volcom_scheduler/task_scheduler.c:162-189 | asking for the next chunk and assigning it, repeatedly, gives every available chunk away exactly once, in order, and then stops |
| SchedulerLife.NewChunksAvailable | src/uspacehelper/volcom_scheduler/task_scheduler.c:149-151 | the chunks made can all be handed out, in order, behind those that could before |
| SchedulerLife.FileHandedOut | src/uspacehelper/volcom_scheduler/task_scheduler.c:121-189 | chunking a task for the first time and handing out long enough gives away what was available and then the pieces of the file, once each and in order, and then nothing |
| SchedulerLife.NewChunksPending | src/uspacehelper/volcom_scheduler/task_scheduler.c:205-221 | new chunks raise their task's total and no completed count, and make the task pending |
| SchedulerLife.MarkCounts | src/uspacehelper/volcom_scheduler/task_scheduler.c:191-221 | marking a chunk raises the completed count of its task by one exactly if it was incomplete, and no other number |
| SchedulerLife.PendingUntilAllMarked | src/uspacehelper/volcom_scheduler/task_scheduler.c:97-221 | a task chunked for the first time is pending until all its chunks have been marked, in whatever order, with repetitions or unknown names; then both status numbers are the number of chunks |
| SchedulerTables.Tables.constructor | src/uspacehelper/volcom_scheduler/task_scheduler.c:22-28 | both tables start empty and consistent |
| SchedulerTables.Tables.AddTask | src/uspacehelper/volcom_scheduler/task_scheduler.c:37-54 | adds exactly when there is room and the name is new; otherwise changes nothing |
| SchedulerTables.Tables.RemoveChunks | src/uspacehelper/volcom_scheduler/task_scheduler.c:62-70 | the in-place shift-and-recheck loop leaves the order-preserving filter of the chunk array |
| SchedulerTables.Tables.RemoveTask | src/uspacehelper/volcom_scheduler/task_scheduler.c:56-83 | takes the first task of that name and all chunks of that name out, keeping the order; on consistent tables that is the filter of both arrays, and they stay consistent; unknown names change nothing |
| SchedulerTables.Tables.CreateChunks | src/uspacehelper/volcom_scheduler/task_scheduler.c:121-160 | for every file size: appends the pieces there is room for, marks the task and returns the count as an int, or fails and changes nothing; keeps the tables consistent if and only if no chunk name is made twice |
| SchedulerTables.Tables.GetNextChunk | src/uspacehelper/volcom_scheduler/task_scheduler.c:162-173 | the first chunk neither completed nor assigned, or none |
| SchedulerTables.Tables.AssignChunk | src/uspacehelper/volcom_scheduler/task_scheduler.c:175-189 | the first chunk of that name has the employee and the time given, succeeding exactly when there is one |
| SchedulerTables.Tables.MarkChunkCompleted | src/uspacehelper/volcom_scheduler/task_scheduler.c:191-203 | the first chunk of that name is completed afterwards and no other chunk changes, succeeding exactly when there is one |
| SchedulerTables.Tables.GetChunkStatus | src/uspacehelper/volcom_scheduler/task_scheduler.c:205-221 | counts that task's chunks and its completed chunks |
| SchedulerTables.StatusDecidesPending | src/uspacehelper/volcom_scheduler/task_scheduler.c:97-118 | the two status counts are equal if and only if the task has no incomplete chunk |
| SchedulerTables.Tables.GetPendingTasks | src/uspacehelper/volcom_scheduler/task_scheduler.c:97-118 | the first tasks, in order, that have an incomplete chunk or are not chunked |
| Selection.SelectBest | src/uspacehelper/volcom_scheduler/task_scheduler.c:232-276 | under every policy, the first of the available candidates with the highest score above -1, and -1 exactly when there is none |
| Selection.ChoiceMeetsGoal | src/uspacehelper/volcom_scheduler/task_scheduler.c:244-272 | round-robin chooses the fewest tasks and by load the least cpu + memory + 10 * tasks; by priority, or by a deadline read for the choice no greater than for the other, the sign of the priority or of the time left decides: positive gives the least busy, zero the first available, negative the busiest |
| Selection.NobodyExactly | src/uspacehelper/volcom_scheduler/task_scheduler.c:232-276 | nobody is chosen exactly when everybody available has cpu + memory + 10 * tasks of at least 201, at least 101 tasks, (100 - cpu) * priority of at most -10, or tasks + 1 seconds since the deadline, by policy |
| Selection.GoalMetExactly | src/uspacehelper/volcom_scheduler/task_scheduler.c:244-272 | a policy never passes over somebody less busy, whatever the candidates, if and only if, where it uses them, the priority is positive, and all readings of the clock show the same, positive time left |
| Selection.ClockTicks | src/uspacehelper/volcom_scheduler/task_scheduler.c:261-275 | when a second passes between two candidates a loaded one is chosen over an idle one although time is left |
| Selection.PicksBusyProcessor | src/uspacehelper/volcom_scheduler/task_scheduler.c:256-259 | without a positive priority a saturated processor is chosen over an idle one |
| Selection.PicksLoaded | src/uspacehelper/volcom_scheduler/task_scheduler.c:261-266 | once the deadline has passed a loaded candidate is chosen over an idle one |
| Selection.GreedyBalance | src/uspacehelper/volcom_scheduler/task_scheduler.c:232-276 | from equal loads the k-th round-robin selection goes to k mod n, loads are dealt like cards, and selection fails exactly once all loads have reached 101 |
| Selection.SharesWithinOne | src/uspacehelper/volcom_scheduler/task_scheduler.c:251-254 | dealt loads differ by at most one and lie between floor(k/n) and ceil(k/n) above the start |
| Fat.DecodesEntry | test/Videos/Video 3/tools/fat/fat.c:122-127 | for every table of 12-bit entries packed in FAT12 layout, decoding at index i returns entry i |
| Fat.PackOfUnpack | test/Videos/Video 3/tools/fat/fat.c:122-127 | every table of whole pairs is the packing of the entries decoded from it |
| Fat.ChainBounded | test/Videos/Video 3/tools/fat/fat.c:117-128 | a chain that ends visits no cluster twice and has at most 4086 clusters |
| Fat.CycleNeverEnds | test/Videos/Video 3/tools/fat/fat.c:117-128 | a walk that returns to a cluster is the walk of no chain that ends |
| Fat.Reader.ReadFat | test/Videos/Video 3/tools/fat/fat.c:75-78 | succeeds exactly when the FAT's sectors are on the disk, and the table is then those after the reserved ones |
| Fat.Reader.ReadRootDirectory | test/Videos/Video 3/tools/fat/fat.c:85-97 | the data area starts after the directory's sectors, rounded up |
| Fat.Reader.ReadFile | test/Videos/Video 3/tools/fat/fat.c:112-131 | for any FAT and any chain of data clusters that ends: terminates, succeeds exactly when every cluster is on the disk, and then the buffer begins with the clusters in chain order and is otherwise unchanged |
| Fat.OutputFitsExactly | test/Videos/Video 3/tools/fat/fat.c:173 | the output fits the buffer if and only if FileSize + BytesPerSector - 1 does not wrap at 2^32 and the chain has at most ceil(FileSize / BytesPerSector) sectors |
| Fat.BufferWraps | test/Videos/Video 3/tools/fat/fat.c:173 | the largest file size gets a buffer of 510 bytes, too small for one sector |
| FatImage.SectorsAt | test/Videos/Video 3/tools/fat/fat.c:66-71 | where no offset wraps a read succeeds exactly if the image has the sectors, and byte i of it is byte lba * BytesPerSector + i of the image |
| FatImage.SectorsJoin | test/Videos/Video 3/tools/fat/fat.c:66-71 | m + n sectors are m sectors followed by the n after them |
| FatImage.FatReadBack | test/Videos/Video 3/tools/fat/fat.c:75-78 | from the image of any volume the FAT is read back as it was laid out, and decoding finds every entry |
| FatImage.DirectoryReadBack | test/Videos/Video 3/tools/fat/fat.c:85-98 | from the image of any volume the root directory is read back as it was laid out |
| FatImage.FileReadBack | test/Videos/Video 3/tools/fat/fat.c:112-131 | from the image of any volume, what is read along a chain is what was stored in its data clusters, in order |
| BootLoader.LbaToChs | test/Videos/Video 3/src/bootloader/boot.asm:272-295 | for 1 to 63 sectors per track and any number of heads: the packed address stands for the sector asked for if and only if its cylinder is below 1024 and its head below 256; sector in 1..spt, head below heads |
| BootLoader.AddressesInjective | test/Videos/Video 3/src/bootloader/boot.asm:272-295 | different sectors within reach get different addresses |
| BootLoader.StepsAgree | test/Videos/Video 3/src/bootloader/boot.asm:150-180 | the loader's div/mod step finds the reader's successor for every cluster, and +31 is the reader's address formula for the header's geometry |
| BootLoader.LoadKernel | test/Videos/Video 3/src/bootloader/boot.asm:147-187 | loads the chain to its end: each of the 128 slots of the segment holds the last cluster read into it |
| BootLoader.SmallKernelIsFile | test/Videos/Video 3/src/bootloader/boot.asm:147-187 | up to 128 sectors, memory is exactly what the reader would output |
| BootLoader.LargeKernelWraps | test/Videos/Video 3/src/bootloader/boot.asm:159 | with any number of sectors beyond 128 the offset wraps, and memory begins with the last sector loaded at offset 0, one after the first of the chain |
| Config.ConfigRoundTrip | src/uspacehelper/volcom_sysinfo/volcom_sysinfo.c:184-264 | for every configuration the C types can hold, loading what was saved gives it back with zeros replaced by the defaults 1048576, 524288, 1048576, 524288, 1, 1 and 1024 |
| Config.SavedText | src/uspacehelper/volcom_sysinfo/volcom_sysinfo.c:184-211 | the saved file is the text the format strings spell out, each setting under its own label |
| Config.SaveLoadStable | src/uspacehelper/volcom_sysinfo/volcom_sysinfo.c:213-264 | saving what was loaded and loading it again changes nothing if and only if there was a file to load |
| Config.LabelsClash | src/uspacehelper/volcom_sysinfo/volcom_sysinfo.c:225-231 | no format tried earlier reads a line written for a later setting |
| Config.NumberRoundTrip | src/uspacehelper/volcom_sysinfo/volcom_sysinfo.c:198-207 | scanning a printed number gives its sign and magnitude back |
| ConfigScan.SignsRead | src/uspacehelper/volcom_sysinfo/volcom_sysinfo.c:225-231 | a number may follow any white space and may have either sign |
| ConfigScan.DigitNeeded | src/uspacehelper/volcom_sysinfo/volcom_sysinfo.c:225-231 | a line without a digit where the number belongs sets nothing |
| ConfigScan.BlankMatchesAny | src/uspacehelper/volcom_sysinfo/volcom_sysinfo.c:225-231 | a blank in a format stands for any white space |
| ConfigScan.UlongIs | src/uspacehelper/volcom_sysinfo/volcom_sysinfo.c:225-228 | sizes are read modulo 2^64, and saturate when there are too many digits |
| ConfigScan.IntIs | src/uspacehelper/volcom_sysinfo/volcom_sysinfo.c:229-231 | other settings are the low 32 bits of a saturated 64-bit number |
| ConfigScan.FirstLine | src/uspacehelper/volcom_sysinfo/volcom_sysinfo.c:222-224 | a line is read through its newline, at most 255 characters at a time |
| Config.SaveConfig | src/uspacehelper/volcom_sysinfo/volcom_sysinfo.c:184-211 | writes the fifteen lines of the file in order |
| Config.LoadConfig | src/uspacehelper/volcom_sysinfo/volcom_sysinfo.c:213-264 | the line loop and the zero patches compute the loading function; a file that cannot be opened gives all zeros |

## Left out

- Sockets, select, UDP text, processes, cgroups, `/proc` and printing: input and output; their outcomes are parameters.
- String buffers of fixed size: names, addresses and chunk ids are unbounded strings, so truncation by `strncpy` and `snprintf` is not modelled.
- Reuse of file descriptors: a connection has an identity of its own, never used again after it is closed.
- Employee fields that are never read (`is_available`, `tasks_completed`, `tasks_failed`) and failing `malloc`.
- `distribute_new_tasks` and hybrid mode: not called, or not implemented.
- Framing.RecvJson: a read returns what has arrived, and errors other than the end of the stream are taken to end the connection; an interrupted call that could be repeated is not modelled.
- Sessions.SendBlocks: a send gets its whole block through or fails; a short send, after which the source would skip file bytes, is not modelled.
- Sessions.EmployeeSession: the messages are those an employer sends, within the size limits; after an initial_config larger than 100 MB the source goes on reading in the middle of it.
- Sessions.ReceiveResult: the name of the result file is not modelled, only whether it can be opened.
- Monitor.AlwaysSettles: that the operating system lets woken threads run is assumed; fairness between threads is not modelled.
- Response.Receive: the fallback read and the parsing of the response by the worker are not part of this model, nor is its handling of chunks it could not pass on.
- The employee's result re-queue after a failed send: it can lose its place in the queue to the worker.
- SchedulerTables.Tables.CreateChunks: a chunk size of zero, which divides by zero, is excluded; the conversion to `int` keeps the low 32 bits, as the usual compilers do.
- Selection.SelectBest: scores are real numbers, so floating-point rounding is not modelled, and the number of active tasks is not negative.
- Fat.Reader.ReadFile: the chain consists of data clusters inside the table and ends; empty files and bad-cluster marks are not modelled, and the 16-bit offset into the directory search is not part of this model.
- BootLoader.LoadKernel: retries, resets and error messages of the BIOS calls.
- Config.LoadConfig: NUL bytes in the file; out-of-range numbers follow the GNU C library, since the language leaves them open.
- The directory search in `fat.c` and the array helpers of `volcom_rcsmngr.c` and `net_utils.c`: they would add only easy claims.
