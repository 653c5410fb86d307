# Verified model of the AngelHair queue

AngelHair is a distributed queue on Cassandra tables. This project models its
protocol and proves what the protocol keeps; it also models two pure parts the
protocol or its web pages rest on, the pop receipt and the Handlebars template
compiler. `dafny verify dfyconfig.toml` checks everything.

## The queue

Messages get indices from a shared counter and lie in buckets of `bucketSize`
indices. A reader pointer marks the bucket being read, a repair pointer follows
behind and republishes messages whose writes came late, and an invisibility pointer
remembers a message that is out for delivery. Every access is one conditional
statement on one of the tables.

- `Wrappers`, `Tables`: the tables and each conditional statement as a function.
- `RowLog`: the life of one row as the log of its values.
- `Machine`: producers, readers, ackers and repairers as processes that take one
  statement, or one clock reading, per step and hold stale snapshots in between.
  Any number of processes interleave; any of them may crash at any point.
- `Invariants`, `Effects`, `Steps`: what every step keeps.
- `QueueTheorems`: safety over whole runs.
- `NoStranding`, `LateWrite`: the repair guarantee, and that its bound is tight.
- `QueueService`: the same code run in place, one client at a time, as a class with
  the tables as fields; termination of the retry loops is proved there.
- `Fifo`, `FifoRuns`: that class refines a plain queue, over every sequence of
  operations.
- `RepairRuns`: the repair guarantee over every sequence of operations and passes.
- `SoloService`: a process of the machine that runs a whole request by itself does what
  that class does.
- `Runs`, `Scenes`: one process of the machine running by itself, and building blocks
  of concrete runs.
- `Retries`, `StuckRetries`: when a process that lost a pointer comes back.
- `DoubleAck`: a row acked twice.
- `ExpiredLease`, `Forgotten`: which expired leases come back, and which never do;
  `ForgottenScenes`: such messages exist.
- `Receipt`: Base64, decimal numbers and the pop receipt's round trip.

## The template compiler

- `Template`: syntax trees, values, helpers, and the meaning of a template as a walk
  over the tree with a stack of contexts.
- `Opcodes`: the opcodes, compiled programs and the stack machine.
- `Compile`: what the compiler emits for each node.
- `CompilerCorrect`: the compiled program means what the tree means, `../` paths
  included.
- `Paths`, `Escaping`: what path segments denote, and what each kind of value writes.
- `Rendering`: when what a program returns is the text of its statements.
- `ProgramSharing`, `Grafts`, `Revealing`: when one function may stand for two programs
  with equal code.
- `Linking`, `LinkedTemplates`: the script, in which a nested program with the same code
  as an earlier one calls the function of that one; when it renders the template.
- `SharedBodies`: templates it does not render.
- `UnknownHelper`: the context an unregistered helper falls back to.
- `TemplateCompiler`, `ScriptCompiler`: the compiler objects with their mutable lists,
  proved against `Compile` and `Linking`.
- `JsLiteral`: string literals in generated code.

## Where the code does less than its documentation

- The repository's README.md:143-145 says the invisibility pointer moves to the next bucket until it
  finds an invisible message. The code moves a local pointer from bucket to bucket but
  passes that local value to the compare-and-set, so the stored pointer never leaves
  bucket 0 (`QueueTheorems.InvisPointerStaysInBucketZero`).
- README.md:88-89 says an unacked message becomes visible again after its timeout. The
  scan only redelivers the message it stands on and parks only on messages still
  invisible, so a lease that ran out behind the reader can be skipped, for good:
  `ExpiredLease.RedeliveredIffReached` gives the exact condition,
  `ExpiredLease.ExpiredLeaseIsSkipped` a run, `Forgotten.ForgottenForever` the
  consequence. The payload is still never dropped (`QueueTheorems.Conservation`).
- The repair wait is rounded down to whole seconds, so a write within the configured
  timeout can be missed. One second less is safe (`NoStranding.NoMessageIsStranded`), and
  anything later can be stranded, in any configuration (`LateWrite.LateWritesStrand`), as
  can a timely write if a sleep is cut short (`LateWrite.InterruptedSleepStrands`). A message
  put with a long initial invisibility is not visible when the repair pass looks, and is
  left behind exactly then (`ServiceSpec.LeftBehindIffInvisible`).
- The ack statement has no guard on the acked flag. With a version that no delivery
  issued a row can be acked twice (`DoubleAck.RowsCanBeAckedTwice`); the usual version
  law holds exactly of the rows that were not (`QueueTheorems.VersionLawIff`).
- `movePointer` returns the original value, not the stored one, when its
  compare-and-set loses, so the loser goes round again on a bucket the pointer has left.
  An overtaken repairer never comes back (`Retries.OvertakenForever`); an overtaken
  reader comes back by itself only if its old bucket has something to deliver
  (`Retries.ReaderReturnsIff`). Termination is proved without interference.
- Handlebars looks up an unregistered helper in the context of the path compiled last,
  not in the current one (`UnknownHelper.FallbackIsCurrentIff`).
- A Handlebars program of one statement has no buffer. If the statement is a comment it
  returns undefined, and a block over it writes that word
  (`Rendering.EachOverCommentPrints`). The comparison that finds equal programs does not
  look at this difference, so in `{{#each xs}}{{! c}}{{/each}}{{#each ys}}{{/each}}` the
  second loop writes it too (`SharedBodies.CommentLeaksIntoLoop`). The script runs as the
  template's own programs do exactly when any two nested programs with equal code have, at
  every level, the same form or code that ends in text
  (`LinkedTemplates.LinkingIsSoundIff`).
- A repair acks what it republishes. If that was the first message of a bucket, no
  invisibility scan that comes to it goes further, ever again: it has not been delivered,
  and the scan looks at that first (`Forgotten.ScansStopForGood`).

## Model

| member | source | states |
|---|---|---|
| `QueueTheorems.UniquePlacement` | core/src/main/java/com/godaddy/domains/cassandraqueue/dataAccess/MonotonicRepoImpl.java:25-61 | In every reachable state exactly the indices below the counter have been handed out, no two processes hold the same one, and an index still held is not in the table, so inserts never collide. |
| `QueueTheorems.BucketReadIsExact` | core/src/main/java/com/godaddy/domains/cassandraqueue/dataAccess/interfaces/MessageRepository.java:27-29 | In every reachable state a bucket read is exactly the rows whose index / bucketSize is that bucket, ascending, and has bucketSize entries exactly when every index of the bucket is written. |
| `QueueTheorems.TombstoneSoundness` | core/src/main/java/com/godaddy/domains/cassandraqueue/workers/ReaderImpl.java:227-233 | Whenever a bucket is closed, all its indices have been handed out and the counter lies in a later bucket: no new index ever maps into a closed bucket. |
| `QueueTheorems.ClosedBucketsArePrefix` | core/src/main/java/com/godaddy/domains/cassandraqueue/workers/RepairWorkerImpl.java:159-196 | The closed buckets are [0, reader) or [0, reader]; the repair pointer is at most one past the reader, and while it is behind the reader its bucket is closed. |
| `QueueTheorems.PointersStepByOne` | core/src/main/java/com/godaddy/domains/cassandraqueue/dataAccess/PointerRepositoryImpl.java:34-52 | Any event moves the reader or repair pointer by at most one, and only past a closed bucket. |
| `QueueTheorems.VersionLawHolds` | core/src/main/java/com/godaddy/domains/cassandraqueue/dataAccess/MessageRepositoryImpl.java:46-122 | In every run the version of a row is 1 + its deliveries + the number of acks applied to it, and it is acked exactly when that number is positive, although writers compute versions from stale snapshots. |
| `QueueTheorems.VersionLawIff` | core/src/main/java/com/godaddy/domains/cassandraqueue/dataAccess/MessageRepositoryImpl.java:46-122 | In every run the version of a row is deliveryCount + 1, plus one if acked, if and only if no ack of the row presented a version that an ack had written; and exactly then is the row acked at most once. |
| `QueueTheorems.LeaseExclusivity` | core/src/main/java/com/godaddy/domains/cassandraqueue/dataAccess/MessageRepositoryImpl.java:72-98 | Of two deliveries of one message, the later consume reads the clock strictly after the earlier lease has run out, through both consume paths and in every interleaving. |
| `QueueTheorems.AckNeedsLatestDelivery` | core/src/main/java/com/godaddy/domains/cassandraqueue/workers/ReaderImpl.java:131-140 | The ack of an issued receipt applies only to an unacked row whose last event is the delivery that issued the receipt, and it leaves the row acked. |
| `QueueTheorems.ReceiptFencing` | core/src/main/java/com/godaddy/domains/cassandraqueue/workers/ReaderImpl.java:131-140 | Over whole runs: issued receipts ack a message at most once, and nothing is delivered after that ack. |
| `QueueTheorems.AckIsFinal` | core/src/main/java/com/godaddy/domains/cassandraqueue/dataAccess/MessageRepositoryImpl.java:72-98 | No event of any process delivers an acked row again, un-acks it or changes its payload. |
| `QueueTheorems.Conservation` | core/src/main/java/com/godaddy/domains/cassandraqueue/workers/RepairWorkerImpl.java:198-214 | At least once: in every run, with any number of repairers crashing between put and ack, each stored payload has in its republish lineage a row with the same payload that is unacked or was acked by a client. |
| `QueueTheorems.InvisPointerStaysInBucketZero` | core/src/main/java/com/godaddy/domains/cassandraqueue/workers/ReaderImpl.java:196-206 | The stored invisibility pointer is -1 or names a message delivered at least once, and that message is in bucket 0: the pointer never leaves it. |
| `QueueTheorems.InvisPointerSkipsNothing` | core/src/main/java/com/godaddy/domains/cassandraqueue/dataAccess/PointerRepositoryImpl.java:38-48 | An event that raises the stored pointer leaves the unset value or an acked message, also under concurrent two-step moves. |
| `QueueTheorems.LostConsumesArePaid` | core/src/main/java/com/godaddy/domains/cassandraqueue/workers/ReaderImpl.java:249-256 | A getAndMark call never loses the same snapshot twice, and each snapshot it lost was overtaken by an entry of that row which another process wrote since the call began; so the losses never outnumber the bumps since then. |
| `QueueTheorems.LossIsOvertaken` | core/src/main/java/com/godaddy/domains/cassandraqueue/workers/ReaderImpl.java:249-256 | The overtaking entry is the delivery or ack that ended the version of the lost snapshot. |
| `QueueTheorems.OwnBumpEndsTheCall` | core/src/main/java/com/godaddy/domains/cassandraqueue/workers/ReaderImpl.java:249-256 | A step of the call that bumps a row itself ends the call; any other keeps its beginning and its losses. |
| `QueueTheorems.LostAllocationsArePaid` | core/src/main/java/com/godaddy/domains/cassandraqueue/dataAccess/MonotonicRepoImpl.java:25-33 | Every index handed out since nextMonotonic began its loop went to another process, and the loop has lost at most as many iterations. |
| `Steps.RunInv` | core/src/main/java/com/godaddy/domains/cassandraqueue/workers/RepairWorkerImpl.java:95-112 | The invariant of the tables and of every program point of every process holds after any sequence of events, including crashes and ticks. |
| `Effects.EffectKeeps` | core/src/main/java/com/godaddy/domains/cassandraqueue/dataAccess/MessageRepositoryImpl.java:46-139 | Each conditional statement, applied when its guard's snapshot facts hold, keeps the invariant of the shared tables and only extends what other processes know. |
| `RowLog.VersionLaw` | core/src/main/java/com/godaddy/domains/cassandraqueue/dataAccess/MessageRepositoryImpl.java:46-122 | The law of one row's history that the version law of the machine rests on. |
| `RowLog.LeasesAreDisjoint` | core/src/main/java/com/godaddy/domains/cassandraqueue/dataAccess/MessageRepositoryImpl.java:72-98 | Two leases in a well-formed row history do not overlap, and each is the clock reading plus the duration. |
| `RowLog.IssuedReceiptFences` | core/src/main/java/com/godaddy/domains/cassandraqueue/dataAccess/MessageRepositoryImpl.java:105-122 | The ack of an issued receipt is the first ack of the row, and no consume follows it. |
| `RowLog.OnlyForward` | core/src/main/java/com/godaddy/domains/cassandraqueue/dataAccess/MessageRepositoryImpl.java:72-122 | Along a row's history delivery counts never fall, acks are never undone, payload and tag never change. |
| `RowLog.AckedOnceIff` | core/src/main/java/com/godaddy/domains/cassandraqueue/dataAccess/MessageRepositoryImpl.java:105-122 | A row history has at most one ack if and only if no ack presents a version that an ack wrote. |
| `DoubleAck.RowsCanBeAckedTwice` | core/src/main/java/com/godaddy/domains/cassandraqueue/dataAccess/MessageRepositoryImpl.java:105-122 | For every configuration: a reachable state in which a client has acked one undelivered row twice and its version is off the law. |
| `NoStranding.NoMessageIsStranded` | core/src/main/java/com/godaddy/domains/cassandraqueue/workers/RepairWorkerImpl.java:118-157 | If every write into a closed bucket landed and was visible no later than tombstone time + repairTimeout - 1000 ms and no sleep was cut short, then in every reachable state each unacked, never delivered message lies at or beyond the repair pointer. |
| `NoStranding.WholeSecondsSlack` | core/src/main/java/com/godaddy/domains/cassandraqueue/workers/RepairWorkerImpl.java:133-157 | Truncating the wait to whole seconds loses less than one second. |
| `NoStranding.FullIsSettled` | core/src/main/java/com/godaddy/domains/cassandraqueue/workers/RepairWorkerImpl.java:168-186 | The fast path is safe: a closed bucket read full and all acked holds no undelivered message and can receive no further write. |
| `NoStranding.SkippedIsSettled` | core/src/main/java/com/godaddy/domains/cassandraqueue/workers/RepairWorkerImpl.java:124-131 | Under that hypothesis every row a repair pass does not republish is delivered or acked. |
| `NoStranding.RepublishedIsSettled` | core/src/main/java/com/godaddy/domains/cassandraqueue/workers/RepairWorkerImpl.java:198-214 | After the ack of a republished original, whether it applied or was lost, the original is acked or delivered. |
| `LateWrite.LateWritesStrand` | core/src/main/java/com/godaddy/domains/cassandraqueue/model/JodaClock.java:14-16 | The bound is tight: for every configuration and every delay after the tombstone beyond repairTimeout - 1000 ms there is a run without interrupted sleeps in which a write landing at that delay is stranded. |
| `LateWrite.LateVisibilityStrands` | core/src/main/java/com/godaddy/domains/cassandraqueue/workers/RepairWorkerImpl.java:124-131 | The same for a write that lands at the time of the tombstone but becomes visible at that delay. |
| `LateWrite.InterruptedSleepStrands` | core/src/main/java/com/godaddy/domains/cassandraqueue/workers/RepairWorkerImpl.java:133-157 | For every configuration with a timeout of at least a second and every delay within the bound: a run with one interrupted sleep strands a write of that delay. |
| `ExpiredLease.RedeliveredIffReached` | core/src/main/java/com/godaddy/domains/cassandraqueue/workers/ReaderImpl.java:150-207 | Of the deliverable, already delivered messages behind the reader, nextMessage returns exactly the one under the stored pointer or first in a bucket b such that the pointer's message and the first messages of the buckets between are absent or acked deliveries and every bucket before b has rows and no running lease. |
| `ExpiredLease.ReachesIff` | core/src/main/java/com/godaddy/domains/cassandraqueue/workers/ReaderImpl.java:176-221 | The messages the scan comes to, in that closed form. |
| `ExpiredLease.OnlyStartsComeBack` | core/src/main/java/com/godaddy/domains/cassandraqueue/workers/ReaderImpl.java:176-221 | Only the message under the stored pointer or the first index of a bucket can be redelivered from behind the reader. |
| `ExpiredLease.ExpiredLeaseIsSkipped` | core/src/main/java/com/godaddy/domains/cassandraqueue/workers/ReaderImpl.java:111-207 | A concrete run ends with a deliverable expired message and a nextMessage that answers that there is none. |
| `Forgotten.ForgottenForever` | core/src/main/java/com/godaddy/domains/cassandraqueue/workers/ReaderImpl.java:150-221 | A message behind the reader that no process is about to deliver, or to move the pointer onto, stays out of reach in every continuation of the run, and its delivery count never changes, if it is in bucket 0 with its lease run out and not under the stored pointer, or is not first in its bucket, or lies behind a bucket whose first message stops all scans. |
| `Forgotten.ScansStopForGood` | core/src/main/java/com/godaddy/domains/cassandraqueue/workers/ReaderImpl.java:158-161 | A first message of a bucket that is acked but was never delivered, as a repair leaves it, stops every scan before it in every continuation of the run. |
| `ForgottenMessage.MessagesAreForgotten` | core/src/main/java/com/godaddy/domains/cassandraqueue/workers/ReaderImpl.java:196-221 | Such a state is reachable with the message unacked and its lease run out; so no continuation delivers it again. |
| `ForgottenStarts.ForgottenInBucket0` | core/src/main/java/com/godaddy/domains/cassandraqueue/workers/ReaderImpl.java:150-207 | The same for a message of bucket 0, for every configuration. |
| `ForgottenStarts.ForgottenStart` | core/src/main/java/com/godaddy/domains/cassandraqueue/workers/ReaderImpl.java:158-161 | The same for the first message of a bucket, behind one whose first message was acked undelivered, for every configuration. |
| `Retries.RepairerReturnsIff` | core/src/main/java/com/godaddy/domains/cassandraqueue/workers/RepairWorkerImpl.java:159-196 | A repairer at its compare-and-set, left to itself, leaves the search for a bucket if and only if the stored pointer is still at its bucket; the bucket is full and acked then. |
| `Retries.OvertakenForever` | core/src/main/java/com/godaddy/domains/cassandraqueue/dataAccess/PointerRepositoryImpl.java:82-92 | A repairer whose bucket the pointer has left never leaves its search again, in any continuation in which it does not crash. |
| `Retries.ReaderReturnsIff` | core/src/main/java/com/godaddy/domains/cassandraqueue/workers/ReaderImpl.java:227-233 | A reader at its compare-and-set, left to itself, returns if and only if the stored pointer is still at its bucket or that bucket has a message to deliver by now. |
| `StuckRetries.RepairerCanBeOvertaken` | core/src/main/java/com/godaddy/domains/cassandraqueue/workers/RepairWorkerImpl.java:159-196 | For every configuration: a reachable state with two repairers of which one has been overtaken. |
| `StuckRetries.ReaderCanBeOvertaken` | core/src/main/java/com/godaddy/domains/cassandraqueue/workers/ReaderImpl.java:227-233 | For every configuration: a reachable state with two readers of which one has been overtaken and does not return by itself. |
| `Runs.CompleteBucket` | core/src/main/java/com/godaddy/domains/cassandraqueue/workers/ReaderImpl.java:223-247 | A reader by itself closes a bucket without a deliverable message if it may, and otherwise ends its call. |
| `Runs.DeliveringBucket` | core/src/main/java/com/godaddy/domains/cassandraqueue/workers/ReaderImpl.java:249-259 | A reader by itself delivers the first deliverable message of its bucket. |
| `SoloRequests.NextMessageAlone` | core/src/main/java/com/godaddy/domains/cassandraqueue/workers/ReaderImpl.java:111-259 | From every reachable state, a process of the machine that runs nextMessage by itself ends with the tables as the service leaves them: it redelivers, moves the invisibility pointer, closes buckets and delivers alike. |
| `SoloRequests.RedeliversAlone` | core/src/main/java/com/godaddy/domains/cassandraqueue/workers/ReaderImpl.java:163-166 | A message under the stored pointer whose lease has run out, unacked and delivered before, is delivered again: its row and nothing else changes. |
| `SoloRequests.PutMessageAlone` | core/src/main/java/com/godaddy/domains/cassandraqueue/api/v1/QueueResource.java:146-158 | A put by itself inserts the fresh row at the next index, invisible for as long as asked. |
| `SoloRequests.AckMessageAlone` | core/src/main/java/com/godaddy/domains/cassandraqueue/workers/ReaderImpl.java:131-140 | An ack by itself sets the flag and bumps the version exactly if the row is there with the version and the tag of the receipt, and else changes nothing. |
| `SoloRequests.RepairPassAlone` | core/src/main/java/com/godaddy/domains/cassandraqueue/workers/RepairWorkerImpl.java:95-157 | A pass by itself goes past the full and acked buckets to the first that is open, where it ends, or that is not full and acked: that one it repairs as the service does if less than a second is left, and else sleeps for the whole seconds left. |
| `SoloRequests.SleeperRepairs` | core/src/main/java/com/godaddy/domains/cassandraqueue/workers/RepairWorkerImpl.java:118-157 | A sleeping pass whose time has come repairs its bucket as the service does and moves the pointer if it is still there. |
| `SoloReads.LostConsumeGoesOn` | core/src/main/java/com/godaddy/domains/cassandraqueue/workers/ReaderImpl.java:168-259 | A lost consume does not end the call: getAndMark starts again on its bucket, and a lost redelivery goes on to getAndMark. |
| `SoloWrites.AllocatesAlone` | core/src/main/java/com/godaddy/domains/cassandraqueue/dataAccess/MonotonicRepoImpl.java:25-33 | nextMonotonic by itself gets the next index, whatever it has read and lost before. |
| `SoloWrites.LostAckGoesOn` | core/src/main/java/com/godaddy/domains/cassandraqueue/workers/RepairWorkerImpl.java:124-131 | A repairer whose ack of an original is lost goes on with the next row. |
| `QueueService.Queue.constructor` | core/src/main/java/com/godaddy/domains/cassandraqueue/dataAccess/QueueRepositoryImpl.java:49-73 | A new queue: counter and bucket pointers 0, invisibility pointer -1, no rows, no tombstones. |
| `QueueService.Queue.NextMonotonic` | core/src/main/java/com/godaddy/domains/cassandraqueue/dataAccess/MonotonicRepoImpl.java:25-61 | Without interference the loop ends, returns the counter and leaves it one higher. |
| `QueueService.Queue.PutMessage` | core/src/main/java/com/godaddy/domains/cassandraqueue/dataAccess/MessageRepositoryImpl.java:46-70 | Inserts the fresh row if the index is free and otherwise reports it and changes nothing. |
| `QueueService.Queue.ConsumeMessage` | core/src/main/java/com/godaddy/domains/cassandraqueue/dataAccess/MessageRepositoryImpl.java:72-98 | Applies exactly when version and unacked flag still match; the caller gets the row as read with the new version, that is with the old delivery count. |
| `QueueService.Queue.AckRow` | core/src/main/java/com/godaddy/domains/cassandraqueue/dataAccess/MessageRepositoryImpl.java:105-122 | Applies exactly when the version still matches. |
| `QueueService.Queue.TryMoveInvisibilityPointerTo` | core/src/main/java/com/godaddy/domains/cassandraqueue/dataAccess/PointerRepositoryImpl.java:38-48 | Lowers the pointer to the destination, else moves it there only from the given original; answers the destination if one of the two applied and the original otherwise. |
| `QueueService.Queue.TryGetNowVisibleMessage` | core/src/main/java/com/godaddy/domains/cassandraqueue/workers/ReaderImpl.java:150-174 | Terminates and keeps the scan contract: which expired lease is redelivered, when the pointer waits, where it parks, and that nothing else changes. |
| `QueueService.Queue.TryGetNextInvisMessage` | core/src/main/java/com/godaddy/domains/cassandraqueue/workers/ReaderImpl.java:176-207 | The same contract from an absent or acked message; terminates because each non-empty bucket it leaves is strictly below the counter's. |
| `QueueService.Queue.GetAndMark` | core/src/main/java/com/godaddy/domains/cassandraqueue/workers/ReaderImpl.java:223-259 | Terminates; closes exactly the complete and closable buckets it passes, and delivers the first deliverable message of the first other bucket, or nothing when that bucket is complete and not closable. |
| `QueueService.Queue.CloseBucket` | core/src/main/java/com/godaddy/domains/cassandraqueue/workers/ReaderImpl.java:261-276 | Writes the tombstone of the stored bucket, once, and moves the pointer to the next. |
| `QueueService.Queue.MonotonPastBucket` | core/src/main/java/com/godaddy/domains/cassandraqueue/workers/ReaderImpl.java:266-270 | True exactly when every index of the bucket has been handed out. |
| `QueueService.Queue.NextMessage` | core/src/main/java/com/godaddy/domains/cassandraqueue/workers/ReaderImpl.java:111-128 | The redelivery of the scan or else the delivery of getAndMark after it. |
| `QueueService.Queue.AckMessage` | core/src/main/java/com/godaddy/domains/cassandraqueue/workers/ReaderImpl.java:131-140 | Acks exactly when version and tag match the row, fails on a missing row, and changes nothing otherwise. |
| `QueueService.Queue.Enqueue` | core/src/main/java/com/godaddy/domains/cassandraqueue/api/v1/QueueResource.java:146-158 | Allocates the next index and inserts there; as a FIFO queue, appends the payload. |
| `QueueService.Queue.Dequeue` | core/src/main/java/com/godaddy/domains/cassandraqueue/workers/ReaderImpl.java:111-140 | With nothing out for delivery and the clock past every put, nextMessage then ackMessage is the dequeue of a FIFO queue, answers none exactly when the queue is empty, and leaves the same situation for the next call. |
| `FifoRuns.PerformAll` | core/src/main/java/com/godaddy/domains/cassandraqueue/workers/ReaderImpl.java:111-259 | FIFO refinement: every sequence of puts, abandoned puts, pauses and takes answers what a plain queue of payloads answers and holds what it holds. |
| `FifoRuns.FirstInFirstOut` | core/src/main/java/com/godaddy/domains/cassandraqueue/workers/ReaderImpl.java:111-259 | What the plain queue has delivered, followed by what it holds, is what it held and what was put, in order. |
| `FifoRuns.PerformFromNew` | core/src/main/java/com/godaddy/domains/cassandraqueue/workers/ReaderImpl.java:111-259 | From a new queue, the payloads received are a prefix of the payloads put, in order. |
| `QueueService.Queue.FindFirstBucketToMonitor` | core/src/main/java/com/godaddy/domains/cassandraqueue/workers/RepairWorkerImpl.java:159-196 | Moves the pointer past exactly the closed buckets that are full and acked, and stops at the first that is not, or at the first open one. |
| `QueueService.Queue.WaitForTimeout` | core/src/main/java/com/godaddy/domains/cassandraqueue/workers/RepairWorkerImpl.java:133-157 | Returns later than tombstone time + repairTimeout - 1 s. |
| `QueueService.Queue.RepublishMessage` | core/src/main/java/com/godaddy/domains/cassandraqueue/workers/RepairWorkerImpl.java:198-214 | A new row with the payload at the next index, and the original acked. |
| `QueueService.Queue.RepublishDue` | core/src/main/java/com/godaddy/domains/cassandraqueue/workers/RepairWorkerImpl.java:124-131 | The loop over the bucket republishes exactly the due messages, in order. |
| `QueueService.Queue.WatchBucket` | core/src/main/java/com/godaddy/domains/cassandraqueue/workers/RepairWorkerImpl.java:118-131 | Wait, republish the bucket, move the pointer past it; of the rows there were, exactly the unacked, visible, never delivered ones of the bucket have changed. |
| `QueueService.Queue.Process` | core/src/main/java/com/godaddy/domains/cassandraqueue/workers/RepairWorkerImpl.java:95-112 | One pass goes past closed, full and acked buckets only. Nothing but the pointer moves when the first other bucket is open; otherwise that bucket, which is not full and acked, is repaired after its timeout and passed. |
| `ServiceSpec.ClosableIsBehind` | core/src/main/java/com/godaddy/domains/cassandraqueue/workers/ReaderImpl.java:227-233 | A bucket that may be closed lies strictly below the counter's bucket: the termination measure of getAndMark. |
| `ServiceSpec.NextBucketRemains` | core/src/main/java/com/godaddy/domains/cassandraqueue/workers/ReaderImpl.java:215-221 | Going on from a non-empty bucket brings the scan strictly closer to the counter's bucket: the termination measure of the scan. |
| `ServiceSpec.RepairedBucketIsExact` | core/src/main/java/com/godaddy/domains/cassandraqueue/workers/RepairWorkerImpl.java:118-131 | One pass acks each due message, inserts its payload at the next free index in order, and changes no other row. |
| `ServiceSpec.PassChangesIff` | core/src/main/java/com/godaddy/domains/cassandraqueue/workers/RepairWorkerImpl.java:124-131 | One pass changes exactly the rows of its bucket that are unacked, visible and never delivered, and adds as many rows as it changes, at the next indices. |
| `ServiceSpec.LeftBehindIffInvisible` | core/src/main/java/com/godaddy/domains/cassandraqueue/workers/RepairWorkerImpl.java:124-131 | One pass leaves an undelivered, unacked message of its bucket behind if and only if it was not visible when the pass looked. |
| `ServiceSpec.RepublishedHasCopy` | core/src/main/java/com/godaddy/domains/cassandraqueue/workers/RepairWorkerImpl.java:198-214 | Every row a pass changes has a fresh copy with its payload, visible from the time of the pass. |
| `RepairRuns.PerformAll` | core/src/main/java/com/godaddy/domains/cassandraqueue/workers/RepairWorkerImpl.java:95-131 | Over every sequence of puts, skipped indices, pauses, deliveries, acks and passes: a message behind the repair pointer that is unacked and undelivered was not visible when its bucket was watched, which was after its timeout less one second. |
| `RepairRuns.WatchSettles` | core/src/main/java/com/godaddy/domains/cassandraqueue/workers/RepairWorkerImpl.java:118-131 | Watching a bucket keeps that guarantee: what the pass leaves behind unacked and undelivered was not visible. |
| `Fifo.DeliversOldest` | core/src/main/java/com/godaddy/domains/cassandraqueue/workers/ReaderImpl.java:223-259 | The message getAndMark delivers is the oldest unacked one, across skipped indices and empty buckets. |
| `Fifo.EmptyMeansEmpty` | core/src/main/java/com/godaddy/domains/cassandraqueue/workers/ReaderImpl.java:223-259 | getAndMark comes back empty only from an empty queue. |
| `Fifo.DeliveryRestores` | core/src/main/java/com/godaddy/domains/cassandraqueue/workers/ReaderImpl.java:131-140 | Delivery and ack remove the first payload and restore the queue invariant. |
| `Fifo.ScanIsIdle` | core/src/main/java/com/godaddy/domains/cassandraqueue/workers/ReaderImpl.java:150-174 | With nothing out for delivery the invisibility scan returns and changes nothing. |
| `Tables.CollectIsScan` | db/scripts/01_cassandra_queue.cql:20-33 | A range scan returns every row of the range once, in ascending index order, and nothing else. |
| `Tables.GetMessagesIsBucket` | core/src/main/java/com/godaddy/domains/cassandraqueue/dataAccess/interfaces/MessageRepository.java:27-29 | getMessages is exactly the bucket's message rows; full exactly when every index is written. |
| `Buckets.InBucket` | core/src/main/java/com/godaddy/domains/cassandraqueue/model/MonotonicIndex.java:34-36 | An index is in a bucket exactly when it lies between the bucket's start and the next one's. |
| `Base64.RoundTrip` | core/src/main/java/com/godaddy/domains/cassandraqueue/model/PopReceipt.java:44-58 | Decoding unpadded Base64 (sections 3.2 and 4 of RFC 4648) returns every byte sequence that was encoded. |
| `Base64.EncodedAt` | core/src/main/java/com/godaddy/domains/cassandraqueue/model/PopReceipt.java:40-42 | Every character of an encoding is the alphabet's digit (table 1 of RFC 4648) of its six bits, and there are as many as the bytes need. |
| `Decimal.ParsePrint` | core/src/main/java/com/godaddy/domains/cassandraqueue/model/PopReceipt.java:40-58 | Printing a number in decimal and parsing it within bounds that contain it returns it, and the text has no colon. |
| `Decimal.PrintedDigit` | core/src/main/java/com/godaddy/domains/cassandraqueue/model/PopReceipt.java:40-42 | The k-th digit from the end is that of the k-th power of ten. |
| `Decimal.FirstDigit` | core/src/main/java/com/godaddy/domains/cassandraqueue/model/PopReceipt.java:40-42 | No leading zero, unless the number is zero. |
| `PopReceipt.TextRoundTrip` | core/src/main/java/com/godaddy/domains/cassandraqueue/model/PopReceipt.java:40-58 | Splitting, trimming and parsing the text of a receipt returns it if and only if its tag is present, non-empty, trimmed and without colon. |
| `PopReceipt.ParseOfText` | core/src/main/java/com/godaddy/domains/cassandraqueue/model/PopReceipt.java:44-58 | What comes back for any tag: the trimmed part before its first colon. |
| `PopReceipt.EmptyTagIsMalformed` | core/src/main/java/com/godaddy/domains/cassandraqueue/model/PopReceipt.java:44-58 | A printed receipt with an empty tag does not parse. |
| `PopReceipt.RoundTrip` | core/src/main/java/com/godaddy/domains/cassandraqueue/model/PopReceipt.java:40-58 | The same equivalence for the printed receipt, through the charset and Base64. |
| `PopReceipt.PrintIsInjective` | core/src/main/java/com/godaddy/domains/cassandraqueue/model/PopReceipt.java:40-42 | Different receipts with such tags print differently. |
| `PopReceipt.RandomTagIsPlain` | client/src/main/java/com/goddady/cassandra/queue/api/client/MessageTag.java:34-39 | Every random tag is six alphabet characters and survives the receipt. |
| `PopReceipt.KnownReceipt` | core/src/main/java/com/godaddy/domains/cassandraqueue/model/PopReceipt.java:40-42 | Index 12, version 3 and tag abc print as the Base64 of 12:3:abc in every charset that encodes ASCII as ASCII. |
| `PopReceipt.ParsesIffInRange` | core/src/main/java/com/godaddy/domains/cassandraqueue/model/PopReceipt.java:44-58 | A text of two numbers and a tag parses exactly if the first fits into 64 bits and the second into 32. |
| `JsLiteral.PassesAreEscape` | core/src/main/resources/assets/lib/handlebars-1.0.0.js:2019-2027 | The six successive replacement passes equal one simultaneous escape, for every string. |
| `JsLiteral.QuotedStringRoundTrip` | core/src/main/resources/assets/lib/handlebars-1.0.0.js:2019-2027 | Reading the literal by section 7.8.4 of ECMA-262 5th edition returns the string, for every string. |
| `JsLiteral.QuotedStringIsInjective` | core/src/main/resources/assets/lib/handlebars-1.0.0.js:2019-2027 | Different strings have different literals. |
| `JsLiteral.LiteralIsOneToken` | core/src/main/resources/assets/lib/handlebars-1.0.0.js:2019-2027 | No raw line terminator occurs in a literal, every quote inside it is behind an odd run of backslashes, and the closing one behind an even run. |
| `JsLiteral.KnownLiteral` | core/src/main/resources/assets/lib/handlebars-1.0.0.js:2019-2027 | The literal of a backslash, a quote, the four line terminators and a letter, code by code. |
| `CompilerCorrect.ProgramRun` | core/src/main/resources/assets/lib/handlebars-1.0.0.js:981-1290 | Compiler correctness for every program, every stack of contexts and every environment whose helpers see their bodies only by calling them: in a frame that binds its depths to those contexts the code returns what the tree walk returns, raises exactly when it raises, and never underflows the stack, leaves anything on it or reads an unbound depth. |
| `CompilerCorrect.TemplateRun` | core/src/main/resources/assets/lib/handlebars-1.0.0.js:1435-1439 | The same for a template called from outside with one context and no depth arguments, every nested program running its own code. |
| `CompilerCorrect.StatementRun` | core/src/main/resources/assets/lib/handlebars-1.0.0.js:1016-1115 | The code of one statement, anywhere in a program and on any stack, leaves that stack as it found it and appends the statement's value, or returns it from a program of one statement. |
| `CompilerCorrect.MustacheRun` | core/src/main/resources/assets/lib/handlebars-1.0.0.js:1117-1158 | The code of any mustache pushes exactly one value, the one the tree walk gives it. |
| `CompilerCorrect.HelperRun` | core/src/main/resources/assets/lib/handlebars-1.0.0.js:1276-1290 | Parameters, programs, hash and call together push the helper's answer on the arguments in source order. |
| `CompilerCorrect.BlockRun` | core/src/main/resources/assets/lib/handlebars-1.0.0.js:1016-1054 | A block renders what its head, blockHelperMissing and its two programs render in the tree walk. |
| `CompilerCorrect.EnterRun` | core/src/main/resources/assets/lib/handlebars-1.0.0.js:2230-2251 | Entering a nested program through its captured arguments is interpreting it below the helper's context, with every ../ one level further out. |
| `CompilerCorrect.HelperAnswers` | core/src/main/resources/assets/lib/handlebars-1.0.0.js:2043-2066 | A helper called with the entered programs answers as it does with the interpreted ones, with the empty string for a program that is missing and without bodies outside a block. |
| `CompilerCorrect.LastSeen` | core/src/main/resources/assets/lib/handlebars-1.0.0.js:1575-1579 | The depth selected last is always bound, so the fallback lookup of a helper call never reads an unbound variable. |
| `Frames.CaptureIsOuter` | core/src/main/resources/assets/lib/handlebars-1.0.0.js:1873-1893 | The arguments of a program expression are the contexts around the block, provided the depths compileProgram passes up are bound. |
| `Frames.EnteredFrame` | core/src/main/resources/assets/lib/handlebars-1.0.0.js:2230-2251 | With those arguments every depth parameter of the nested program holds the context that many levels up. |
| `Running.IdRun` | core/src/main/resources/assets/lib/handlebars-1.0.0.js:1160-1174 | The code of a path pushes the value the path has in the stack of contexts. |
| `Running.ParamsRun` | core/src/main/resources/assets/lib/handlebars-1.0.0.js:1243-1260 | Parameters compiled last to first leave the first one on top, or raise if any of them raises. |
| `Running.HashRun` | core/src/main/resources/assets/lib/handlebars-1.0.0.js:1056-1078 | The hash opcodes push exactly the pairs of the hash, a later key overriding an earlier one. |
| `Arguments.ParamsAre` | core/src/main/resources/assets/lib/handlebars-1.0.0.js:1243-1260 | A call has one argument for each parameter, in order, and raises exactly if one of them does. |
| `Arguments.HashKeys` | core/src/main/resources/assets/lib/handlebars-1.0.0.js:1056-1078 | The hash of a call has the keys of its pairs, and no other. |
| `Arguments.HashIs` | core/src/main/resources/assets/lib/handlebars-1.0.0.js:1056-1078 | Each key of a hash has the value of the last pair with that key. |
| `DepthLists.ProgramDepths` | core/src/main/resources/assets/lib/handlebars-1.0.0.js:981-996 | A program's depth list holds exactly the non-zero depths its nodes and nested programs add. |
| `DepthLists.ParentDepthsMembers` | core/src/main/resources/assets/lib/handlebars-1.0.0.js:998-1014 | A nested program passes up exactly its depths from 2, each less one. |
| `ProgramSharing.DepthsAreTold` | core/src/main/resources/assets/lib/handlebars-1.0.0.js:1212-1220 | The depth list of a compiled program is ascending and determined by its opcodes and nested programs. |
| `ProgramSharing.EqualCodeIsSameProgram` | core/src/main/resources/assets/lib/handlebars-1.0.0.js:918-948 | Programs the comparison takes for equal have the same depth parameters, although it does not look at them; and they are equal if and only if at every level both or neither have exactly one statement. |
| `Revealing.SharingIsSoundIff` | core/src/main/resources/assets/lib/handlebars-1.0.0.js:1864-1871 | Of programs the comparison takes for equal, one function may stand for both in every frame and environment if and only if at every level both or neither have one statement, or the code ends by appending a constant or an escaped value. |
| `SharedReturn.InterchangeableRunAlike` | core/src/main/resources/assets/lib/handlebars-1.0.0.js:918-948 | Under that condition the two run alike in every environment whose helpers see their bodies only by calling them, and have the same depth parameters. |
| `Revealing.TellsApart` | core/src/main/resources/assets/lib/handlebars-1.0.0.js:1430-1433 | Otherwise there is an environment and a frame in which both return, but not the same value, nor the same text if they have the same form. |
| `Grafts.ProgramGraft` | core/src/main/resources/assets/lib/handlebars-1.0.0.js:998-1014 | Replacing the nested programs of a template by others that need the same depths compiles to the same code over the other programs: code and depths depend on nested programs only through their depths. |
| `Linking.AllResolve` | core/src/main/resources/assets/lib/handlebars-1.0.0.js:1842-1863 | Each nested program is called by the number of a function that was generated for a program with equal code, and no number is ever given another function. |
| `Linking.AllStayDifferent` | core/src/main/resources/assets/lib/handlebars-1.0.0.js:1864-1871 | No two functions are generated for programs with equal code, so it does not matter in which order the search goes. |
| `LinkedTemplates.ScriptIsTemplate` | core/src/main/resources/assets/lib/handlebars-1.0.0.js:1842-1863 | Whatever is shared, the script renders as some template with equal code does; so it never faults. |
| `LinkedTemplates.LinkedIffSharable` | core/src/main/resources/assets/lib/handlebars-1.0.0.js:1842-1871 | Every nested program at every level calls a function that may stand for it if and only if any two nested programs of the template with equal code may stand for each other. |
| `LinkedTemplates.LinkingIsSoundIff` | core/src/main/resources/assets/lib/handlebars-1.0.0.js:1842-1871 | The script runs as the template with every nested program running its own code, in every frame and environment, if and only if any two nested programs with equal code may stand for each other. |
| `LinkedTemplates.ScriptRun` | core/src/main/resources/assets/lib/handlebars-1.0.0.js:2146-2171 | Under that condition the script renders every context in every environment as the tree walk does. |
| `LinkedTemplates.ScriptRunIff` | core/src/main/resources/assets/lib/handlebars-1.0.0.js:1842-1871 | For a template without paths above the root the condition is exact. |
| `LinkedTemplates.RendersItsTextIff` | core/src/main/resources/assets/lib/handlebars-1.0.0.js:1430-1433 | For a template without paths above the root, the script writes the text of its statements in every context and environment if and only if it is not exactly one comment and the condition holds. |
| `SharedBodies.CommentLeaksIntoLoop` | core/src/main/resources/assets/lib/handlebars-1.0.0.js:1842-1871 | In a script with a loop over a comment and a loop over nothing the second loop writes undefined for every item, where the tree walk writes nothing. |
| `SharedBodies.LoopsAreAPair` | core/src/main/resources/assets/lib/handlebars-1.0.0.js:918-948 | A template with two nested programs that have equal code and the same form and may not stand for each other, because their own nested programs may not. |
| `SharedBodies.HiddenAboveRoot` | core/src/main/resources/assets/lib/handlebars-1.0.0.js:1842-1871 | A template with a path above the root whose nested programs are not sharable although its script and the tree walk agree everywhere, since both raise. |
| `Rendering.ReturnsItsTextIff` | core/src/main/resources/assets/lib/handlebars-1.0.0.js:981-996 | What a program returns turns into the text of its statements, in every environment and stack of contexts, if and only if it is not exactly one comment. |
| `Rendering.EachOverCommentPrints` | core/src/main/resources/assets/lib/handlebars-1.0.0.js:124-158 | A block of each whose body is one comment writes undefined once for every item. |
| `Escaping.UnescapeEscape` | core/src/main/resources/assets/lib/handlebars-1.0.0.js:829-842 | Reading the six entities back from an escaped text returns the text, for every string. |
| `Escaping.EscapedIsSafe` | core/src/main/resources/assets/lib/handlebars-1.0.0.js:829-842 | No character of an escaped text is special to HTML, and every ampersand begins one of the six entities. |
| `Escaping.EscapedValueText` | core/src/main/resources/assets/lib/handlebars-1.0.0.js:854-868 | What an escaped mustache writes for undefined, null, booleans, safe strings, strings, numbers, arrays and objects, through the compiled template. |
| `Escaping.RawValueText` | core/src/main/resources/assets/lib/handlebars-1.0.0.js:1545-1560 | The same for an unescaped one: zero and true are written, every other falsy value is not. |
| `Escaping.PathOfTwo` | core/src/main/resources/assets/lib/handlebars-1.0.0.js:1624-1630 | Null, undefined and false pass through the second name of a path; anything else is asked for it. |
| `Escaping.NothingInNull` | core/src/main/resources/assets/lib/handlebars-1.0.0.js:1588-1590 | The first name of a path looked up in null or undefined raises. |
| `UnknownHelper.FallbackIsCurrentIff` | core/src/main/resources/assets/lib/handlebars-1.0.0.js:1742-1752 | The call of an unknown helper means the lookup in the current context, in every environment, if and only if the last path compiled before the call has no ../. |
| `UnknownHelper.EarlierStatementDecides` | core/src/main/resources/assets/lib/handlebars-1.0.0.js:1575-1579 | Swapping two independent statements turns a rendering into an exception. |
| `Template.MakeIdIsOk` | core/src/main/resources/assets/lib/handlebars-1.0.0.js:742-771 | A simple id has one part and depth 0. |
| `TemplateCompiler.NewId` | core/src/main/resources/assets/lib/handlebars-1.0.0.js:742-771 | The loop over the path segments gives the id, or the invalid path error, of MakeId. |
| `Paths.MakeIdIs` | core/src/main/resources/assets/lib/handlebars-1.0.0.js:742-771 | The error comes exactly if a "..", "." or "this" follows a name; else the depth is the number of ".." segments, the parts are the names in order, and the id is simple exactly if the path is one name. |
| `TemplateCompiler.Compiler.constructor` | core/src/main/resources/assets/lib/handlebars-1.0.0.js:952-976 | A new compiler has empty lists and knows the built-in helpers, overridden by the user's. |
| `CompilerState.MergedIs` | core/src/main/resources/assets/lib/handlebars-1.0.0.js:955-972 | A name is known as the user says, and a name the user does not list exactly if it is one of the seven built-in ones. |
| `TemplateCompiler.Compiler.AddDepth` | core/src/main/resources/assets/lib/handlebars-1.0.0.js:1212-1220 | Adds a non-zero depth once, through its marks. |
| `TemplateCompiler.Compiler.ID` | core/src/main/resources/assets/lib/handlebars-1.0.0.js:1160-1174 | Adds exactly the path's depth and opcodes. |
| `TemplateCompiler.Compiler.PushParams` | core/src/main/resources/assets/lib/handlebars-1.0.0.js:1243-1260 | The backward loop adds exactly the code of the parameters, last to first. |
| `TemplateCompiler.Compiler.Hash` | core/src/main/resources/assets/lib/handlebars-1.0.0.js:1056-1078 | The loop over the pairs adds exactly the code of the hash. |
| `TemplateCompiler.Compiler.HelperMustache` | core/src/main/resources/assets/lib/handlebars-1.0.0.js:1147-1158 | Adds exactly the code of the call, or refuses it: exactly when it may only use known helpers and this one is not. |
| `TemplateCompiler.Compiler.ClassifyMustache` | core/src/main/resources/assets/lib/handlebars-1.0.0.js:1222-1241 | A helper exactly if the id is simple and there are parameters or a hash or the name is known; ambiguous exactly if it is simple, not a helper and other helpers are allowed. |
| `TemplateCompiler.Compiler.CompileNested` | core/src/main/resources/assets/lib/handlebars-1.0.0.js:998-1014 | Compiles the nested program in a new compiler, appends it as the next child and adds its depths from 2, less one; refuses exactly what the nested compiler refuses. |
| `TemplateCompiler.Compiler.Block` | core/src/main/resources/assets/lib/handlebars-1.0.0.js:1016-1054 | Adds the nested programs, their depths and the code of the block; refuses exactly the blocks with a refused call. |
| `TemplateCompiler.Compiler.Statements` | core/src/main/resources/assets/lib/handlebars-1.0.0.js:981-996 | From empty lists, the statements in order and the sort produce exactly the compiled program, or a refusal if any statement is refused. |
| `ScriptCompiler.Context.MatchExistingProgram` | core/src/main/resources/assets/lib/handlebars-1.0.0.js:1864-1871 | Returns the first function generated for a program with equal code, or none if there is none. |
| `ScriptCompiler.Context.CompileChildren` | core/src/main/resources/assets/lib/handlebars-1.0.0.js:1842-1863 | The loop over the nested programs, with its recursion and placeholders, assigns exactly the functions of the specification and leaves exactly its table. |
| `ScriptCompiler.Compile` | core/src/main/resources/assets/lib/handlebars-1.0.0.js:2146-2171 | The compiler object refuses exactly the templates with a call it may not count on; for any other it produces the linked script, which renders every context in every environment as the tree walk does if any two nested programs with equal code may stand for each other. |

## Left out

- Cassandra itself: sessions, consistency levels, statement building. Each conditional
  statement is one atomic step.
- The message table is keyed by index alone, since every statement derives the bucket
  as index / bucketSize, and tombstone rows are a separate table; so a receipt that
  names the tombstone's own index -2 is not modelled.
- Null pointer and counter rows: a queue is created before it is used, and createQueue's
  insert-if-absent on an existing queue is not modelled.
- One global clock that never goes back. A stream filter reads the clock once per row it
  looks at in `Machine` and once per call in `QueueService`.
- Indices, versions, delivery counts and times are unbounded integers in the queue;
  overflow is not modelled. Receipts use the 64-bit and 32-bit ranges.
- Random tags are parameters of the steps that draw them.
- The repair worker's start, stop, thread and polling interval: a pass is a request, and
  stopping it in the middle is a crash or an interrupted sleep.
- Leader election for repair workers: it is not the bound implementation. Any number of
  repairers is allowed instead.
- maxDeliveryCount is stored but never read.
- The charset of a receipt is a parameter: the round trip asks that it decodes what it
  encoded for the receipt at hand. Base64 decoding is given for the characters Base64
  texts consist of.
- HTTP resources other than the producer's two effects, JSON and XML adapters,
  dependency injection, configuration, logging, metrics.
- Handlebars: the lexer and parser, partials, data references, string params, functions
  as context values, and the naming of registers and stack slots in the generated text.
  Property lookup and the text of numbers, arrays and objects are parameters of the
  environment.
- A helper is a function of its receiver, arguments, hash and two bodies, and sees a body
  only by calling it; helpers with side effects and the data option are not modelled.
- LinkedTemplates.ScriptRunIff: is stated for templates without paths above the root. For
  others the condition is sufficient (`LinkedTemplates.ScriptRun`), and not necessary
  (`SharedBodies.HiddenAboveRoot`).
- QueueService.Queue.GetAndMark: has no retry branch, because a consume cannot be lost
  when nobody interferes; the retry is in `Machine`.
- QueueService.Queue.Process: one pass without interference; interleaved passes are in
  `Machine`.
