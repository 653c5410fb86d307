// The queue as a concurrent machine.  Any number of processes run the producer, reader,
// ack and repair code; one step of one process is one statement against the tables or
// one reading of the clock, and between its steps a process keeps the snapshots it has
// read.  The history fields (log, parent, owner, bumps, interrupted) record what
// happened and influence no step.
module Machine {
  import opened Wrappers
  import opened Buckets
  import opened Tables
  import opened RowLog

  type Positive = n: int | n >= 1 witness 1

  // QueueDefinition.bucketSize and BucketConfiguration.repairWorkerTimeout (milliseconds)
  datatype Config = Config(bucketSize: Positive, repairTimeout: int)

  datatype World = World(
    config: Config,
    now: int,
    store: Store,
    log: map<int, seq<Entry>>,   // every value each row took
    parent: map<int, int>,       // republished copy -> the row it copies
    owner: map<int, nat>,        // index -> the process that allocated it
    bumps: nat,                  // successful consumes and acks so far
    interrupted: bool)           // some repair sleep was cut short

  datatype Receipt = Receipt(index: int, version: int, tag: string)

  // Who called nextMonotonic and putMessage.
  datatype Job =
    | Produce(blob: string, invisibility: int)
    | Republish(watch: Watch, k: nat)

  // The bucket a repairer watches and the rows it read there.
  datatype Watch = Watch(bucket: int, tombstonedAt: int, seen: seq<Message>)

  // A loop of nextMonotonic: the counter when it began, and the attempts it has lost.
  datatype Race = Race(start: int, lost: nat)

  // A call of getAndMark: how many consumes and acks had been applied when it began, and
  // the snapshots whose consume it has lost.
  datatype Loss = Loss(index: int, version: int)
  datatype Call = Call(start: nat, lost: seq<Loss>)

  // Where consumeMessage was called from.
  datatype Caller = FromInvis | FromBucket(bucket: int, call: Call, mark: nat)

  datatype Pc =
    | Idle
    // MonotonicRepoImpl.nextMonotonic
    | MonotonRead(job: Job, race: Race)
    | MonotonCas(job: Job, race: Race, current: int)
    // MessageRepositoryImpl.putMessage, then for a repairer the ack of the original
    | PutClock(job: Job, index: int)
    | PutInsert(job: Job, index: int, clock: int)
    | RepublishAck(watch: Watch, k: nat, copy: int)
    // ReaderImpl.nextMessage: the invisibility pointer
    | ReadInvis(duration: int)
    | GetAtInvis(duration: int, pointer: int)
    | CheckAtInvis(duration: int, m: Message)
    | GetInvisBucket(duration: int, pointer: int)
    | ScanInvis(duration: int, pointer: int, seen: seq<Message>, k: nat)
    | CasLowerInvis(duration: int, pointer: int, dest: int)
    | CasRaiseInvis(duration: int, pointer: int, dest: int)
    // ReaderImpl.getAndMark
    | ReadReader(duration: int)
    | GetBucket(duration: int, bucket: int, call: Call)
    | CheckComplete(duration: int, bucket: int, call: Call, mark: nat, seen: seq<Message>, k: nat)
    | CheckMonoton(duration: int, bucket: int, call: Call)
    | TombstoneClock(duration: int, bucket: int, call: Call)
    | TombstoneInsert(duration: int, bucket: int, call: Call, clock: int)
    | CasReader(duration: int, bucket: int, call: Call)
    | FindVisible(duration: int, bucket: int, call: Call, mark: nat, seen: seq<Message>, k: nat)
    // MessageRepositoryImpl.consumeMessage
    | ConsumeClock(duration: int, m: Message, caller: Caller)
    | ConsumeCas(duration: int, m: Message, clock: int, caller: Caller)
    // ReaderImpl.ackMessage
    | AckRead(receipt: Receipt)
    | AckCas(m: Message)
    // RepairWorkerImpl.process
    | ReadRepair
    | FindTombstone(bucket: int)
    | FindFull(bucket: int, tombstonedAt: int)
    | CasRepairFull(bucket: int)
    | WaitClock(bucket: int, tombstonedAt: int)
    | Sleeping(bucket: int, tombstonedAt: int, until: int)
    | ReadWatched(bucket: int, tombstonedAt: int)
    | ScanWatched(watch: Watch, k: nat)
    | CasRepairWatched(bucket: int)

  // A change of the shared tables, or none.
  datatype Effect =
    | Nothing
    | Allocate(current: int)
    | Insert(index: int, row: Row, clock: int, source: Option<int>)
    | DoConsume(m: Message, clock: int, duration: int)
    | DoAck(m: Message, kind: Kind)
    | DoTombstone(bucket: int, clock: int)
    | DoMoveReader(original: int)
    | DoMoveRepair(original: int)
    | DoLowerInvis(dest: int)
    | DoMoveInvis(original: int, dest: int)
    | WakeEarly

  function LogOf(w: World, index: int): seq<Entry> {
    if index in w.log then w.log[index] else []
  }

  function Apply(w: World, p: nat, e: Effect): World {
    match e
    case Nothing => w
    case Allocate(current) =>
      if w.store.counter != current then w
      else w.(store := IncrementMonoton(w.store, current), owner := w.owner[current := p])
    case Insert(index, row, clock, source) =>
      if index in w.store.rows then w
      else w.(store := Put(w.store, index, row),
              log := w.log[index := [Entry(row, Inserted, clock, w.now, p, w.bumps)]],
              parent := if source.Some? then w.parent[index := source.value] else w.parent)
    case DoConsume(m, clock, duration) =>
      if !Consumable(w.store, m) then w
      else var s := Consume(w.store, m, clock + duration);
           w.(store := s, bumps := w.bumps + 1,
              log := w.log[m.index := LogOf(w, m.index)
                                      + [Entry(s.rows[m.index], Consumed(duration), clock, w.now, p, w.bumps)]])
    case DoAck(m, kind) =>
      if !Ackable(w.store, m) then w
      else var s := Ack(w.store, m);
           w.(store := s, bumps := w.bumps + 1,
              log := w.log[m.index := LogOf(w, m.index)
                                      + [Entry(s.rows[m.index], kind, w.now, w.now, p, w.bumps)]])
    case DoTombstone(bucket, clock) => w.(store := Tombstone(w.store, bucket, clock))
    case DoMoveReader(original) => w.(store := AdvanceReader(w.store, original))
    case DoMoveRepair(original) => w.(store := AdvanceRepair(w.store, original))
    case DoLowerInvis(dest) => w.(store := LowerInvis(w.store, dest))
    case DoMoveInvis(original, dest) => w.(store := MoveInvis(w.store, original, dest))
    case WakeEarly => w.(interrupted := true)
  }

  // What a client asks for.
  datatype Request =
    | PutMessage(blob: string, invisibility: int)
    | NextMessage(duration: int)
    | AckMessage(receipt: Receipt)
    | RepairPass

  // The outside world's part in a step: the tag putMessage draws, a request to an idle
  // process, a crash, or an interrupted sleep.
  datatype Choice = Go(tag: string) | Begin(request: Request) | Crash | Interrupt

  function Start(request: Request, w: World): Pc {
    match request
    case PutMessage(blob, invisibility) => MonotonRead(Produce(blob, invisibility), Race(w.store.counter, 0))
    case NextMessage(duration) => ReadInvis(duration)
    case AckMessage(receipt) => AckRead(receipt)
    case RepairPass => ReadRepair
  }

  // Seconds.secondsBetween and Duration.getStandardSeconds truncate toward zero.
  function WholeSeconds(millis: int): int {
    if millis >= 0 then millis / 1000 else -((-millis) / 1000)
  }

  // ReaderImpl.getPointerForNextBucket
  function NextBucketStart(config: Config, pointer: int): int {
    StartOf(config.bucketSize, InvisBucket(config.bucketSize, pointer) + 1)
  }

  // One step of a process: the effect it has and where it continues.
  function Act(w: World, pc: Pc, tag: string): (Effect, Pc) {
    var s := w.store;
    match pc
    case Idle => (Nothing, Idle)

    case MonotonRead(job, race) => (Nothing, MonotonCas(job, race, s.counter))
    case MonotonCas(job, race, current) =>
      (Allocate(current),
       if s.counter == current then PutClock(job, current)
       else MonotonRead(job, race.(lost := race.lost + 1)))
    case PutClock(job, index) => (Nothing, PutInsert(job, index, w.now))
    case PutInsert(job, index, clock) =>
      (match job
       case Produce(blob, invisibility) =>
         (Insert(index, NewRow(blob, tag, clock + invisibility), clock, None), Idle)
       case Republish(watch, k) =>
         if k >= |watch.seen| then (Nothing, Idle) else
         (Insert(index, NewRow(watch.seen[k].row.blob, tag, clock), clock, Some(watch.seen[k].index)),
          // an index that is taken raises ExistingMonotonFoundException and ends the pass
          if index in s.rows then Idle else RepublishAck(watch, k, index)))
    case RepublishAck(watch, k, copy) =>
      if k >= |watch.seen| then (Nothing, Idle)
      else (DoAck(watch.seen[k], RepairAcked), ScanWatched(watch, k + 1))

    case ReadInvis(d) => (Nothing, GetAtInvis(d, s.invis))
    case GetAtInvis(d, pointer) =>
      (Nothing,
       match GetMessage(s, pointer)
       case None => GetInvisBucket(d, pointer)
       case Some(m) => if m.row.deliveryCount == 0 then ReadReader(d) else CheckAtInvis(d, m))
    case CheckAtInvis(d, m) =>
      (Nothing,
       if m.row.Visible(w.now) && !m.row.acked then ConsumeClock(d, m, FromInvis)
       else if m.row.acked then GetInvisBucket(d, m.index)
       else ReadReader(d))
    case GetInvisBucket(d, pointer) =>
      var seen := GetMessages(s, w.config.bucketSize, InvisBucket(w.config.bucketSize, pointer));
      (Nothing, if |seen| == 0 then ReadReader(d) else ScanInvis(d, pointer, seen, 0))
    case ScanInvis(d, pointer, seen, k) =>
      (Nothing,
       if k >= |seen| then GetAtInvis(d, NextBucketStart(w.config, pointer))
       else var row := seen[k].row;
            if !row.acked && !row.Visible(w.now) && row.deliveryCount > 0
            then CasLowerInvis(d, pointer, seen[k].index)
            else ScanInvis(d, pointer, seen, k + 1))
    case CasLowerInvis(d, pointer, dest) =>
      // movePointer returns the destination when applied and the original otherwise
      (DoLowerInvis(dest),
       var moved := if s.invis > dest then dest else pointer;
       if moved == pointer then CasRaiseInvis(d, pointer, dest) else ReadReader(d))
    case CasRaiseInvis(d, pointer, dest) => (DoMoveInvis(pointer, dest), ReadReader(d))

    case ReadReader(d) => (Nothing, GetBucket(d, s.reader, Call(w.bumps, [])))
    case GetBucket(d, b, call) =>
      (Nothing, CheckComplete(d, b, call, w.bumps, GetMessages(s, w.config.bucketSize, b), 0))
    case CheckComplete(d, b, call, mark, seen, k) =>
      (Nothing,
       if k >= |seen| then
         if |seen| == w.config.bucketSize then TombstoneClock(d, b, call) else CheckMonoton(d, b, call)
       else if seen[k].row.acked || !seen[k].row.Visible(w.now) then CheckComplete(d, b, call, mark, seen, k + 1)
       else FindVisible(d, b, call, mark, seen, 0))
    case CheckMonoton(d, b, call) =>
      (Nothing,
       if s.counter >= 0 && BucketOf(w.config.bucketSize, s.counter) > b then TombstoneClock(d, b, call)
       else Idle)
    case TombstoneClock(d, b, call) => (Nothing, TombstoneInsert(d, b, call, w.now))
    case TombstoneInsert(d, b, call, clock) => (DoTombstone(b, clock), CasReader(d, b, call))
    case CasReader(d, b, call) =>
      (DoMoveReader(b), GetBucket(d, if s.reader == b then b + 1 else b, call))
    case FindVisible(d, b, call, mark, seen, k) =>
      (Nothing,
       if k >= |seen| then Idle
       else if !seen[k].row.acked && seen[k].row.Visible(w.now)
       then ConsumeClock(d, seen[k], FromBucket(b, call, mark))
       else FindVisible(d, b, call, mark, seen, k + 1))

    case ConsumeClock(d, m, caller) => (Nothing, ConsumeCas(d, m, w.now, caller))
    case ConsumeCas(d, m, clock, caller) =>
      (DoConsume(m, clock, d),
       if Consumable(s, m) then Idle
       else match caller
            case FromInvis => ReadReader(d)
            case FromBucket(b, call, mark) =>
              GetBucket(d, b, call.(lost := call.lost + [Loss(m.index, m.row.version)])))

    case AckRead(receipt) =>
      (Nothing,
       match GetMessage(s, receipt.index)
       case None => Idle   // a null row ends the request with an error
       case Some(m) =>
         if m.row.version != receipt.version || m.row.tag != receipt.tag then Idle else AckCas(m))
    case AckCas(m) => (DoAck(m, ClientAcked), Idle)

    case ReadRepair => (Nothing, FindTombstone(s.repair))
    case FindTombstone(b) => (Nothing, if b in s.tombs then FindFull(b, s.tombs[b]) else Idle)
    case FindFull(b, at) =>
      var seen := GetMessages(s, w.config.bucketSize, b);
      (Nothing,
       if |seen| == w.config.bucketSize && (forall m :: m in seen ==> m.row.acked)
       then CasRepairFull(b) else WaitClock(b, at))
    case CasRepairFull(b) => (DoMoveRepair(b), FindTombstone(if s.repair == b then b + 1 else b))
    case WaitClock(b, at) =>
      (Nothing,
       var seconds := WholeSeconds(at + w.config.repairTimeout - w.now);
       if seconds > 0 then Sleeping(b, at, w.now + seconds * 1000) else ReadWatched(b, at))
    case Sleeping(b, at, until) =>
      (Nothing, if w.now >= until then ReadWatched(b, at) else pc)
    case ReadWatched(b, at) =>
      (Nothing, ScanWatched(Watch(b, at, GetMessages(s, w.config.bucketSize, b)), 0))
    case ScanWatched(watch, k) =>
      (Nothing,
       if k >= |watch.seen| then CasRepairWatched(watch.bucket)
       else var row := watch.seen[k].row;
            if !row.acked && row.Visible(w.now) && row.deliveryCount == 0
            then MonotonRead(Republish(watch, k), Race(s.counter, 0))
            else ScanWatched(watch, k + 1))
    case CasRepairWatched(b) => (DoMoveRepair(b), Idle)
  }

  predicate Does(w: World, pc: Pc, e: Effect, next: Pc, tag: string) { Act(w, pc, tag) == (e, next) }

  // A step that changes nothing but the program point.
  predicate Moves(w: World, pc: Pc, next: Pc, tag: string) { Does(w, pc, Nothing, next, tag) }

  function ProcessStep(w: World, pc: Pc, c: Choice): (Effect, Pc) {
    match c
    case Crash => (Nothing, Idle)
    case Begin(request) => (Nothing, if pc.Idle? then Start(request, w) else pc)
    case Interrupt =>
      if pc.Sleeping? then (WakeEarly, ReadWatched(pc.bucket, pc.tombstonedAt)) else (Nothing, pc)
    case Go(tag) => Act(w, pc, tag)
  }

  datatype State = State(w: World, procs: seq<Pc>)

  datatype Event = Tick(millis: nat) | Step(p: nat, choice: Choice)

  function Next(s: State, e: Event): State {
    match e
    case Tick(millis) => s.(w := s.w.(now := s.w.now + millis))
    case Step(p, c) =>
      if p >= |s.procs| then s
      else var (effect, pc) := ProcessStep(s.w, s.procs[p], c);
           State(Apply(s.w, p, effect), s.procs[p := pc])
  }

  // QueueRepositoryImpl.createQueue, with n idle processes
  function Init(config: Config, now: int, n: nat): State {
    State(World(config, now, EMPTY_STORE, map[], map[], map[], 0, false), seq(n, _ => Idle))
  }

  // A run: any sequence of events from a fresh queue.
  function Run(init: State, events: seq<Event>): State {
    if |events| == 0 then init
    else Next(Run(init, events[..|events| - 1]), events[|events| - 1])
  }
}
