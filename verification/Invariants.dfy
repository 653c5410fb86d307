// What every step of every process keeps.  `Inv` holds of the shared world, `Local` of
// one process's program point and snapshots, and `Rely` says what one step of process p
// can do to what the others know.
module Invariants {
  import opened Buckets
  import opened Tables
  import opened RowLog
  import opened Machine

  // ---- the shared world ----

  predicate Acked(w: World, i: int) { i in w.store.rows && w.store.rows[i].acked }

  predicate Delivered(w: World, i: int) { i in w.store.rows && w.store.rows[i].deliveryCount > 0 }

  // Exactly the indices below the counter have been handed out.
  ghost predicate AllocationInv(w: World) {
    && w.store.counter >= 0
    && forall n :: n in w.owner <==> 0 <= n < w.store.counter
  }

  // Every row carries an allocated index and is the last value of its log.
  ghost predicate LogInv(w: World) {
    && w.store.rows.Keys == w.log.Keys
    && forall i :: i in w.log ==>
         && 0 <= i < w.store.counter
         && ValidLog(w.log[i])
         && Last(w.log[i]).row == w.store.rows[i]
         && Last(w.log[i]).at <= w.now
  }

  // Tombstoned buckets are [0, reader) or [0, reader], and fully allocated.
  ghost predicate TombstoneInv(w: World) {
    && w.store.reader >= 0
    && (forall b :: 0 <= b < w.store.reader ==> b in w.store.tombs)
    && (forall b :: b in w.store.tombs ==>
          && 0 <= b <= w.store.reader
          && StartOf(w.config.bucketSize, b + 1) <= w.store.counter
          && w.store.tombs[b] <= w.now)
  }

  ghost predicate RepairInv(w: World) {
    && w.store.repair >= 0
    && forall b :: 0 <= b < w.store.repair ==> b in w.store.tombs
  }

  // The invisibility pointer is unset or names a delivered message of bucket 0.
  ghost predicate InvisInv(w: World) {
    w.store.invis == -1 || (0 <= w.store.invis < w.config.bucketSize && Delivered(w, w.store.invis))
  }

  ghost predicate Copied(w: World, i: int) {
    exists n :: n in w.parent && w.parent[n] == i
  }

  ghost predicate Retired(log: seq<Entry>) {
    exists k :: 0 <= k < |log| && log[k].kind == RepairAcked
  }

  // A republished copy comes after what it copies and has the same payload; a repairer
  // acks only rows that have a copy.
  ghost predicate LineageInv(w: World) {
    && (forall n :: n in w.parent ==>
          && n in w.store.rows && w.parent[n] in w.store.rows && w.parent[n] < n
          && w.store.rows[w.parent[n]].blob == w.store.rows[n].blob)
    && (forall i :: i in w.log && Retired(w.log[i]) ==> Copied(w, i))
  }

  ghost predicate Inv(w: World) {
    AllocationInv(w) && LogInv(w) && TombstoneInv(w) && RepairInv(w) && InvisInv(w) && LineageInv(w)
  }

  // ---- one process ----

  // A message read some time ago: a value its row took.
  ghost predicate Seen(w: World, m: Message) {
    && m.index in w.log
    && 1 <= m.row.version <= |w.log[m.index]|
    && w.log[m.index][m.row.version - 1].row == m.row
  }

  ghost predicate SeenBefore(w: World, m: Message, clock: int) {
    Seen(w, m) && w.log[m.index][m.row.version - 1].at <= clock
  }

  ghost predicate AllSeen(w: World, seen: seq<Message>) {
    forall k :: 0 <= k < |seen| ==> SeenBefore(w, seen[k], w.now)
  }

  // Process p allocated index n and has not inserted it yet.
  ghost predicate Holds(w: World, p: nat, n: int) {
    n in w.owner && w.owner[n] == p && n !in w.log
  }

  // The row at k of a watch is up for republishing.
  ghost predicate Republishable(w: World, watch: Watch, k: nat) {
    k < |watch.seen| && !watch.seen[k].row.acked && watch.seen[k].row.deliveryCount == 0
  }

  ghost predicate WatchOk(w: World, watch: Watch) {
    watch.bucket in w.store.tombs && w.store.tombs[watch.bucket] == watch.tombstonedAt && AllSeen(w, watch.seen)
  }

  ghost predicate JobOk(w: World, job: Job) {
    job.Republish? ==> WatchOk(w, job.watch) && Republishable(w, job.watch, job.k)
  }

  // Every index handed out since the loop began went to another process.
  ghost predicate MonotonRaceOk(w: World, p: nat, race: Race) {
    && 0 <= race.start && race.start + race.lost <= w.store.counter
    && forall n :: n in w.owner && n >= race.start ==> w.owner[n] != p
  }

  // Written by another process since the call began.
  predicate ByOther(e: Entry, p: nat, start: nat) { e.writer != p && e.bump >= start }

  // A lost consume was beaten by the entry that ended the snapshot's version.
  ghost predicate LossPaid(w: World, p: nat, start: nat, loss: Loss) {
    && loss.index in w.log && 1 <= loss.version < |w.log[loss.index]|
    && ByOther(w.log[loss.index][loss.version], p, start)
  }

  // The losses of a call are paid for, each by an entry of its own.
  ghost predicate LossesOk(w: World, p: nat, call: Call) {
    && (forall j :: 0 <= j < |call.lost| ==> LossPaid(w, p, call.start, call.lost[j]))
    && (forall j, k :: 0 <= j < k < |call.lost| ==> call.lost[j] != call.lost[k])
  }

  // Whatever happened to the row since the snapshot, others did it; and the snapshot is
  // newer than every snapshot of the row that was lost.
  ghost predicate NewerOk(w: World, p: nat, call: Call, m: Message) {
    && (m.index in w.log ==>
          forall k :: 0 <= m.row.version <= k < |w.log[m.index]| ==> ByOther(w.log[m.index][k], p, call.start))
    && (forall j :: 0 <= j < |call.lost| && call.lost[j].index == m.index ==> call.lost[j].version < m.row.version)
  }

  // Every attempt lost so far saw another successful bump.
  ghost predicate RaceOk(w: World, p: nat, call: Call) {
    call.start + |call.lost| <= w.bumps && LossesOk(w, p, call)
  }

  // If a row of the snapshot has moved on, somebody bumped it after the snapshot.
  ghost predicate MarkOk(w: World, p: nat, call: Call, mark: nat, m: Message) {
    && call.start + |call.lost| <= mark <= w.bumps
    && (m.index in w.log && |w.log[m.index]| > m.row.version ==> mark < w.bumps)
    && NewerOk(w, p, call, m)
  }

  ghost predicate MarksOk(w: World, p: nat, call: Call, mark: nat, seen: seq<Message>) {
    && call.start + |call.lost| <= mark <= w.bumps
    && LossesOk(w, p, call)
    && forall k :: 0 <= k < |seen| ==> MarkOk(w, p, call, mark, seen[k])
  }

  // A pointer of the invisibility scan: unset, a stored value, or a later bucket's start.
  ghost predicate PointerOk(w: World, pointer: int) {
    pointer == -1 || pointer >= w.config.bucketSize || (0 <= pointer && Delivered(w, pointer))
  }

  // A pointer the scan is leaving: in bucket 0 it is unset or its message is acked.
  ghost predicate Leavable(w: World, pointer: int) {
    pointer == -1 || pointer >= w.config.bucketSize || (0 <= pointer && Delivered(w, pointer) && Acked(w, pointer))
  }

  ghost predicate DestOk(w: World, pointer: int, dest: int) {
    && dest >= 0 && Delivered(w, dest)
    && (pointer < w.config.bucketSize ==> dest < w.config.bucketSize)
  }

  ghost predicate FullyAllocated(w: World, b: int) {
    0 <= b <= w.store.reader && StartOf(w.config.bucketSize, b + 1) <= w.store.counter
  }

  // Every index of bucket b is written and acked.
  ghost predicate FullAcked(w: World, b: int) {
    forall i :: StartOf(w.config.bucketSize, b) <= i < StartOf(w.config.bucketSize, b + 1) ==> Acked(w, i)
  }

  ghost predicate CallerOk(w: World, p: nat, m: Message, caller: Caller) {
    caller.FromBucket? ==>
      && 0 <= caller.bucket <= w.store.reader
      && LossesOk(w, p, caller.call) && MarkOk(w, p, caller.call, caller.mark, m)
  }

  ghost predicate Local(w: World, p: nat, pc: Pc) {
    match pc
    case Idle => true
    case MonotonRead(job, race) => JobOk(w, job) && MonotonRaceOk(w, p, race)
    case MonotonCas(job, race, current) =>
      JobOk(w, job) && MonotonRaceOk(w, p, race) && race.start + race.lost <= current <= w.store.counter
    case PutClock(job, index) => JobOk(w, job) && Holds(w, p, index) && CopyAfter(job, index)
    case PutInsert(job, index, clock) =>
      JobOk(w, job) && Holds(w, p, index) && CopyAfter(job, index) && clock <= w.now
    case RepublishAck(watch, k, copy) =>
      && WatchOk(w, watch) && Republishable(w, watch, k)
      && copy in w.parent && w.parent[copy] == watch.seen[k].index
    case ReadInvis(d) => true
    case GetAtInvis(d, pointer) => PointerOk(w, pointer)
    case CheckAtInvis(d, m) =>
      SeenBefore(w, m, w.now) && m.row.deliveryCount > 0 && PointerOk(w, m.index)
    case GetInvisBucket(d, pointer) => Leavable(w, pointer)
    case ScanInvis(d, pointer, seen, k) =>
      Leavable(w, pointer) && AllSeen(w, seen) && InvisSeen(w, pointer, seen)
    case CasLowerInvis(d, pointer, dest) => Leavable(w, pointer) && DestOk(w, pointer, dest)
    case CasRaiseInvis(d, pointer, dest) => Leavable(w, pointer) && DestOk(w, pointer, dest)
    case ReadReader(d) => true
    case GetBucket(d, b, call) => 0 <= b <= w.store.reader && RaceOk(w, p, call)
    case CheckComplete(d, b, call, mark, seen, k) =>
      && 0 <= b <= w.store.reader && AllSeen(w, seen) && MarksOk(w, p, call, mark, seen)
      && (|seen| == w.config.bucketSize ==> FullyAllocated(w, b))
    case CheckMonoton(d, b, call) => 0 <= b <= w.store.reader && RaceOk(w, p, call)
    case TombstoneClock(d, b, call) => FullyAllocated(w, b) && RaceOk(w, p, call)
    case TombstoneInsert(d, b, call, clock) => FullyAllocated(w, b) && clock <= w.now && RaceOk(w, p, call)
    case CasReader(d, b, call) => b in w.store.tombs && RaceOk(w, p, call)
    case FindVisible(d, b, call, mark, seen, k) =>
      0 <= b <= w.store.reader && AllSeen(w, seen) && MarksOk(w, p, call, mark, seen)
    case ConsumeClock(d, m, caller) =>
      && SeenBefore(w, m, w.now) && !m.row.acked && m.row.nextVisible < w.now && CallerOk(w, p, m, caller)
    case ConsumeCas(d, m, clock, caller) =>
      && SeenBefore(w, m, clock) && !m.row.acked && m.row.nextVisible < clock <= w.now
      && CallerOk(w, p, m, caller)
    case AckRead(receipt) => true
    case AckCas(m) => Seen(w, m)
    case ReadRepair => true
    case FindTombstone(b) => b >= 0
    case FindFull(b, at) => b in w.store.tombs && w.store.tombs[b] == at
    case CasRepairFull(b) => b in w.store.tombs && FullAcked(w, b)
    case WaitClock(b, at) => b in w.store.tombs && w.store.tombs[b] == at
    case Sleeping(b, at, until) => b in w.store.tombs && w.store.tombs[b] == at
    case ReadWatched(b, at) => b in w.store.tombs && w.store.tombs[b] == at
    case ScanWatched(watch, k) => WatchOk(w, watch)
    case CasRepairWatched(b) => b in w.store.tombs
  }

  ghost predicate CopyAfter(job: Job, index: int) {
    job.Republish? && job.k < |job.watch.seen| ==> job.watch.seen[job.k].index < index
  }

  ghost predicate InvisSeen(w: World, pointer: int, seen: seq<Message>) {
    pointer < w.config.bucketSize ==>
      forall k :: 0 <= k < |seen| ==> seen[k].index < w.config.bucketSize
  }

  // ---- what a step needs and what it can change ----

  ghost predicate EffectOk(w: World, p: nat, e: Effect) {
    match e
    case Nothing => true
    case Allocate(current) => true
    case Insert(index, row, clock, source) =>
      && Holds(w, p, index) && FreshRow(row) && clock <= w.now
      && (source.Some? ==>
            source.value in w.store.rows && source.value < index
            && w.store.rows[source.value].blob == row.blob)
    case DoConsume(m, clock, duration) =>
      SeenBefore(w, m, clock) && !m.row.acked && m.row.nextVisible < clock <= w.now
    case DoAck(m, kind) =>
      && Seen(w, m)
      && (kind.ClientAcked? || (kind.RepairAcked? && !m.row.acked && m.row.deliveryCount == 0 && Copied(w, m.index)))
    case DoTombstone(bucket, clock) => FullyAllocated(w, bucket) && clock <= w.now
    case DoMoveReader(original) => original in w.store.tombs
    case DoMoveRepair(original) => original in w.store.tombs
    case DoLowerInvis(dest) => dest >= 0 && Delivered(w, dest)
    case DoMoveInvis(original, dest) => Leavable(w, original) && DestOk(w, original, dest)
    case WakeEarly => true
  }

  // A step of process p, seen by everyone: nothing known is lost, and only p can
  // insert a row at an index p allocated.
  ghost predicate Rely(w: World, v: World, p: nat) {
    && v.config == w.config
    && w.now <= v.now
    && w.store.counter <= v.store.counter
    && w.store.reader <= v.store.reader
    && w.store.repair <= v.store.repair
    && w.bumps <= v.bumps
    && (w.interrupted ==> v.interrupted)
    && (forall i :: i in w.log ==> i in v.log && w.log[i] <= v.log[i])
    && (forall i :: i in w.log && |v.log[i]| > |w.log[i]| ==> w.bumps < v.bumps)
    && (forall i, k :: i in w.log && i in v.log && |w.log[i]| <= k < |v.log[i]| ==>
          v.log[i][k].writer == p && v.log[i][k].bump == w.bumps)
    && (forall i :: i in v.log && i !in w.log ==>
          i in v.owner && v.owner[i] == p && |v.log[i]| == 1 && v.log[i][0].at == w.now)
    && (forall n :: n in w.owner ==> n in v.owner && v.owner[n] == w.owner[n])
    && (forall n :: n in v.owner && n !in w.owner ==> v.owner[n] == p)
    && (forall n :: n in w.parent ==> n in v.parent && v.parent[n] == w.parent[n])
    && (forall b :: b in w.store.tombs ==> b in v.store.tombs && v.store.tombs[b] == w.store.tombs[b])
  }

  // A step of p at pc is permitted and lands where `Local` says.
  ghost predicate StepOk(w: World, p: nat, pc: Pc, tag: string) {
    var (e, next) := Act(w, pc, tag);
    EffectOk(w, p, e) && Local(Apply(w, p, e), p, next)
  }
}
