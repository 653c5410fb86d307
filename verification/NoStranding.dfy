// The repair guarantee.  A write that lands late in a closed bucket must not be lost: if
// every write into a closed bucket lands and becomes visible no later than one second
// before tombstone time plus repair timeout, and no repair sleep is cut short, then no
// undelivered message is ever behind the repair pointer.  The second is what rounding
// the wait down to whole seconds can lose.
module Repair {
  import opened Buckets
  import opened Machine
  import opened Invariants

  const SLACK: int := 1000

  // The latest time by which a write must have landed in bucket b.
  function Deadline(w: World, b: int): int
    requires b in w.store.tombs
  {
    w.store.tombs[b] + w.config.repairTimeout - SLACK
  }

  ghost predicate TimelyRow(w: World, i: int)
    requires i in w.log
  {
    i >= 0 && |w.log[i]| >= 1 && BucketOf(w.config.bucketSize, i) in w.store.tombs ==>
      && w.log[i][0].at <= Deadline(w, BucketOf(w.config.bucketSize, i))
      && w.log[i][0].row.nextVisible <= Deadline(w, BucketOf(w.config.bucketSize, i))
  }

  ghost predicate TimelyWrites(w: World) {
    !w.interrupted && forall i :: i in w.log ==> TimelyRow(w, i)
  }

  predicate Settled(w: World, i: int) { Acked(w, i) || Delivered(w, i) }

  predicate InB(w: World, i: int, b: int) {
    i >= 0 && BucketOf(w.config.bucketSize, i) == b
  }

  ghost predicate BucketSettled(w: World, b: int) {
    forall i :: i in w.store.rows && InB(w, i, b) ==> Settled(w, i)
  }

  // No timely write can land in bucket b any more.
  ghost predicate Closed(w: World, b: int) {
    && b in w.store.tombs
    && (w.now > Deadline(w, b) || forall i :: InB(w, i, b) ==> i in w.store.rows)
  }

  ghost predicate RepairedInv(w: World) {
    && (forall i :: i in w.store.rows && i >= 0 && BucketOf(w.config.bucketSize, i) < w.store.repair ==> Settled(w, i))
    && (forall b :: 0 <= b < w.store.repair ==> Closed(w, b))
  }

  // The snapshot of a watch covers its bucket, and its first k rows are settled.
  ghost predicate Covered(w: World, watch: Watch, k: nat) {
    && watch.bucket in w.store.tombs && w.now > Deadline(w, watch.bucket)
    && (forall j :: 0 <= j < |watch.seen| ==> InB(w, watch.seen[j].index, watch.bucket))
    && (forall i :: i in w.store.rows && InB(w, i, watch.bucket) ==> Listed(watch, i))
    && (forall j :: 0 <= j < k && j < |watch.seen| ==> Settled(w, watch.seen[j].index))
  }

  ghost predicate Listed(watch: Watch, i: int) {
    exists j :: 0 <= j < |watch.seen| && watch.seen[j].index == i
  }

  ghost predicate JobCovered(w: World, job: Job) {
    job.Republish? ==> Covered(w, job.watch, job.k)
  }

  ghost predicate RepairLocal(w: World, pc: Pc) {
    match pc
    case MonotonRead(job, race) => JobCovered(w, job)
    case MonotonCas(job, race, current) => JobCovered(w, job)
    case PutClock(job, index) => JobCovered(w, job)
    case PutInsert(job, index, clock) => JobCovered(w, job)
    case RepublishAck(watch, k, copy) => Covered(w, watch, k)
    case Sleeping(b, at, until) => until > at + w.config.repairTimeout - SLACK
    case ReadWatched(b, at) => w.now > at + w.config.repairTimeout - SLACK
    case ScanWatched(watch, k) => Covered(w, watch, k)
    case CasRepairFull(b) => BucketSettled(w, b) && Closed(w, b)
    case CasRepairWatched(b) => BucketSettled(w, b) && Closed(w, b)
    case _ => true
  }

  ghost predicate RepairState(s: State) {
    RepairedInv(s.w) && forall q :: 0 <= q < |s.procs| ==> RepairLocal(s.w, s.procs[q])
  }

  // A step of a repairer lands where `RepairLocal` says.
  ghost predicate RepairStepOk(w: World, v: World, pc: Pc, tag: string) {
    RepairLocal(v, Act(w, pc, tag).1)
  }
}

module NoStranding {
  import opened Buckets
  import opened Tables
  import opened RowLog
  import opened Machine
  import opened Invariants
  import opened Effects
  import opened Steps
  import opened Repair
  import QueueTheorems

  // ---- timeliness is about the whole run: it holds of every earlier state ----

  lemma TimelyBefore(w: World, v: World, p: nat)
    requires LogInv(w) && LogInv(v) && Rely(w, v, p) && TimelyWrites(v)
    ensures TimelyWrites(w)
  {
    forall i | i in w.log ensures TimelyRow(w, i) {
      assert TimelyRow(v, i);
      assert v.log[i][0] == w.log[i][0];
    }
  }

  // A timely row cannot appear in a closed bucket.
  lemma NoNewRow(w: World, v: World, p: nat, i: int, b: int)
    requires LogInv(w) && LogInv(v) && Rely(w, v, p) && TimelyWrites(v)
    requires Closed(w, b) && i in v.store.rows && InB(v, i, b)
    ensures i in w.store.rows
  {
    assert TimelyRow(v, i);
    if i !in w.log && w.now <= Deadline(w, b) { assert InB(w, i, b); }
  }

  lemma SettledKept(w: World, v: World, p: nat)
    requires LogInv(w) && LogInv(v) && Rely(w, v, p)
    ensures forall i :: Settled(w, i) ==> Settled(v, i)
  {
    RowsKept(w, v);
  }

  lemma ClosedKept(w: World, v: World, p: nat, b: int)
    requires LogInv(w) && LogInv(v) && Rely(w, v, p) && Closed(w, b)
    ensures Closed(v, b)
  {
    if w.now <= Deadline(w, b) {
      forall i | InB(v, i, b) ensures i in v.store.rows { assert InB(w, i, b); }
    }
  }

  lemma BucketSettledKept(w: World, v: World, p: nat, b: int)
    requires LogInv(w) && LogInv(v) && Rely(w, v, p) && TimelyWrites(v)
    requires Closed(w, b) && BucketSettled(w, b)
    ensures BucketSettled(v, b) && Closed(v, b)
  {
    ClosedKept(w, v, p, b);
    SettledKept(w, v, p);
    forall i | i in v.store.rows && InB(v, i, b) ensures Settled(v, i) {
      NoNewRow(w, v, p, i, b);
      assert InB(w, i, b);
    }
  }

  lemma CoveredKept(w: World, v: World, p: nat, watch: Watch, k: nat)
    requires LogInv(w) && LogInv(v) && Rely(w, v, p) && TimelyWrites(v) && Covered(w, watch, k)
    ensures Covered(v, watch, k)
  {
    SettledKept(w, v, p);
    forall i | i in v.store.rows && InB(v, i, watch.bucket) ensures Listed(watch, i) {
      NoNewRow(w, v, p, i, watch.bucket);
      assert InB(w, i, watch.bucket);
    }
    forall j | 0 <= j < |watch.seen| ensures InB(v, watch.seen[j].index, watch.bucket) {
      assert InB(w, watch.seen[j].index, watch.bucket);
    }
  }

  // What a repairer knows survives every step of every process, its own included.
  lemma RepairLocalKept(w: World, v: World, p: nat, pc: Pc)
    requires LogInv(w) && LogInv(v) && Rely(w, v, p) && TimelyWrites(v) && RepairLocal(w, pc)
    ensures RepairLocal(v, pc)
  {
    if pc.MonotonRead? || pc.MonotonCas? || pc.PutClock? || pc.PutInsert? {
      JobLocalKept(w, v, p, pc);
    } else if pc.RepublishAck? || pc.ScanWatched? {
      WatchLocalKept(w, v, p, pc);
    } else if pc.CasRepairFull? || pc.CasRepairWatched? {
      CasLocalKept(w, v, p, pc);
    } else {
      ClockLocalKept(w, v, p, pc);
    }
  }

  lemma WatchLocalKept(w: World, v: World, p: nat, pc: Pc)
    requires LogInv(w) && LogInv(v) && Rely(w, v, p) && TimelyWrites(v) && RepairLocal(w, pc)
    requires pc.RepublishAck? || pc.ScanWatched?
    ensures RepairLocal(v, pc)
  {
    CoveredKept(w, v, p, pc.watch, pc.k);
  }

  lemma CasLocalKept(w: World, v: World, p: nat, pc: Pc)
    requires LogInv(w) && LogInv(v) && Rely(w, v, p) && TimelyWrites(v) && RepairLocal(w, pc)
    requires pc.CasRepairFull? || pc.CasRepairWatched?
    ensures RepairLocal(v, pc)
  {
    BucketSettledKept(w, v, p, pc.bucket);
  }

  lemma JobLocalKept(w: World, v: World, p: nat, pc: Pc)
    requires LogInv(w) && LogInv(v) && Rely(w, v, p) && TimelyWrites(v) && RepairLocal(w, pc)
    requires pc.MonotonRead? || pc.MonotonCas? || pc.PutClock? || pc.PutInsert?
    ensures RepairLocal(v, pc)
  {
    if pc.job.Republish? { CoveredKept(w, v, p, pc.job.watch, pc.job.k); }
  }

  lemma ClockLocalKept(w: World, v: World, p: nat, pc: Pc)
    requires Rely(w, v, p) && RepairLocal(w, pc)
    requires !pc.MonotonRead? && !pc.MonotonCas? && !pc.PutClock? && !pc.PutInsert?
    requires !pc.RepublishAck? && !pc.ScanWatched? && !pc.CasRepairFull? && !pc.CasRepairWatched?
    ensures RepairLocal(v, pc)
  {
  }

  // The pointer invariant survives a step that does not move the pointer, or moves it
  // past a settled bucket.
  lemma RepairedKept(w: World, v: World, p: nat)
    requires LogInv(w) && LogInv(v) && Rely(w, v, p) && TimelyWrites(v) && RepairedInv(w)
    requires v.store.repair == w.store.repair
          || (v.store.repair == w.store.repair + 1 && BucketSettled(w, w.store.repair) && Closed(w, w.store.repair))
    ensures RepairedInv(v)
  {
    forall b | 0 <= b < v.store.repair ensures Closed(v, b) {
      ClosedKept(w, v, p, b);
    }
    SettledKept(w, v, p);
    forall i | i in v.store.rows && i >= 0 && BucketOf(v.config.bucketSize, i) < v.store.repair
      ensures Settled(v, i)
    {
      var b := BucketOf(v.config.bucketSize, i);
      assert InB(v, i, b);
      NoNewRow(w, v, p, i, b);
      assert InB(w, i, b);
    }
  }

  // ---- the repairer's own steps ----

  // Truncating the wait to whole seconds loses less than a second.
  lemma WholeSecondsSlack(millis: int)
    ensures WholeSeconds(millis) > 0 ==> WholeSeconds(millis) * 1000 > millis - SLACK
    ensures WholeSeconds(millis) <= 0 ==> millis < SLACK
  {
  }

  // The fast path: bucketSize rows, all acked.
  lemma FullIsSettled(w: World, b: int)
    requires Inv(w) && b in w.store.tombs
    requires var seen := GetMessages(w.store, w.config.bucketSize, b);
      |seen| == w.config.bucketSize && forall m :: m in seen ==> m.row.acked
    ensures BucketSettled(w, b) && Closed(w, b)
  {
    var bs := w.config.bucketSize;
    var seen := GetMessages(w.store, bs, b);
    GetMessagesIsBucket(w.store, bs, b);
    forall i | InB(w, i, b) ensures i in w.store.rows {
      InBucket(bs, i, b);
    }
    forall i | i in w.store.rows && InB(w, i, b) ensures Settled(w, i) {
      assert Message(i, w.store.rows[i]) in seen;
    }
  }

  lemma WatchCovers(w: World, b: int, at: int)
    requires Inv(w) && b in w.store.tombs && w.store.tombs[b] == at && w.now > Deadline(w, b)
    ensures Covered(w, Watch(b, at, GetMessages(w.store, w.config.bucketSize, b)), 0)
  {
    var seen := GetMessages(w.store, w.config.bucketSize, b);
    var watch := Watch(b, at, seen);
    GetMessagesIsBucket(w.store, w.config.bucketSize, b);
    forall j | 0 <= j < |seen| ensures InB(w, seen[j].index, b) {
      assert seen[j] in seen;
    }
    forall i | i in w.store.rows && InB(w, i, b) ensures Listed(watch, i) {
      var m := Message(i, w.store.rows[i]);
      assert m in seen;
      var j :| 0 <= j < |seen| && seen[j] == m;
    }
  }

  // A row the scan does not republish is settled: if it were undelivered and unacked it
  // would still carry its insert value, which is visible by the deadline.
  lemma SkippedIsSettled(w: World, watch: Watch, k: nat)
    requires Inv(w) && TimelyWrites(w) && Covered(w, watch, k) && AllSeen(w, watch.seen) && k < |watch.seen|
    requires var row := watch.seen[k].row; row.acked || !row.Visible(w.now) || row.deliveryCount != 0
    ensures Settled(w, watch.seen[k].index)
  {
    var m := watch.seen[k];
    assert SeenBefore(w, m, w.now);
    SeenPayload(w, m);
    VersionIsPosition(w.log[m.index], m.row.version - 1);
    assert InB(w, m.index, watch.bucket);
    assert TimelyRow(w, m.index);
  }

  // A row that has moved on since it was seen fresh is settled.
  lemma MovedOnIsSettled(w: World, m: Message)
    requires LogInv(w) && Seen(w, m) && |w.log[m.index]| > m.row.version
    ensures Settled(w, m.index)
  {
    var log := w.log[m.index];
    assert FollowsAt(log, m.row.version);
    VersionIsPosition(log, m.row.version - 1);
    OnlyForward(log, m.row.version, |log| - 1);
  }

  // After the ack of a republished row, applied or lost, the row is settled.
  lemma RepublishedIsSettled(w: World, v: World, p: nat, m: Message)
    requires LogInv(w) && Seen(w, m) && v == Apply(w, p, DoAck(m, RepairAcked))
    ensures Settled(v, m.index)
  {
    if !Ackable(w.store, m) {
      VersionLaw(w.log[m.index]);
      MovedOnIsSettled(w, m);
    }
  }

  lemma AllSettled(w: World, watch: Watch, k: nat)
    requires Covered(w, watch, k) && k >= |watch.seen|
    ensures BucketSettled(w, watch.bucket) && Closed(w, watch.bucket)
  {
    forall i | i in w.store.rows && InB(w, i, watch.bucket) ensures Settled(w, i) {
      assert Listed(watch, i);
      var j :| 0 <= j < |watch.seen| && watch.seen[j].index == i;
    }
  }

  lemma OneMoreSettled(w: World, watch: Watch, k: nat)
    requires Covered(w, watch, k) && k < |watch.seen| && Settled(w, watch.seen[k].index)
    ensures Covered(w, watch, k + 1)
  {
  }

  lemma AllocatorRepairOk(w: World, v: World, p: nat, pc: Pc, tag: string)
    requires LogInv(w) && LogInv(v) && Rely(w, v, p) && TimelyWrites(v) && RepairLocal(w, pc)
    requires pc.MonotonRead? || pc.MonotonCas? || pc.PutClock? || pc.PutInsert?
    ensures RepairStepOk(w, v, pc, tag)
  {
    if pc.job.Republish? { CoveredKept(w, v, p, pc.job.watch, pc.job.k); }
  }

  lemma AckRepairOk(w: World, v: World, p: nat, pc: Pc)
    requires LogInv(w) && LogInv(v) && Rely(w, v, p) && TimelyWrites(v)
    requires pc.RepublishAck? && Local(w, p, pc) && Covered(w, pc.watch, pc.k)
    requires v == Apply(w, p, DoAck(pc.watch.seen[pc.k], RepairAcked))
    ensures Covered(v, pc.watch, pc.k + 1)
  {
    CoveredKept(w, v, p, pc.watch, pc.k);
    assert SeenBefore(w, pc.watch.seen[pc.k], w.now);
    RepublishedIsSettled(w, v, p, pc.watch.seen[pc.k]);
    OneMoreSettled(v, pc.watch, pc.k);
  }

  lemma ScanRepairOk(w: World, p: nat, pc: Pc, tag: string)
    requires Inv(w) && TimelyWrites(w) && Local(w, p, pc) && RepairLocal(w, pc) && pc.ScanWatched?
    ensures RepairStepOk(w, w, pc, tag)
  {
    if pc.k >= |pc.watch.seen| {
      AllSettled(w, pc.watch, pc.k);
    } else if Act(w, pc, tag).1.ScanWatched? {
      SkippedIsSettled(w, pc.watch, pc.k);
      OneMoreSettled(w, pc.watch, pc.k);
    }
  }

  lemma QuietRepairOk(w: World, p: nat, pc: Pc, tag: string)
    requires Inv(w) && Local(w, p, pc) && RepairLocal(w, pc)
    requires pc.FindTombstone? || pc.FindFull? || pc.WaitClock? || pc.Sleeping? || pc.ReadWatched?
    ensures RepairStepOk(w, w, pc, tag)
  {
    if pc.FindFull? {
      if Act(w, pc, tag).1.CasRepairFull? { FullIsSettled(w, pc.bucket); }
    } else if pc.WaitClock? {
      WholeSecondsSlack(pc.tombstonedAt + w.config.repairTimeout - w.now);
    } else if pc.ReadWatched? {
      WatchCovers(w, pc.bucket, pc.tombstonedAt);
    }
  }

  // Readers, ackers and the repairer's first and last steps lead nowhere near a watch.
  lemma InvisElsewhere(w: World, v: World, pc: Pc, tag: string)
    requires InReader(pc) || pc.ReadInvis?
    ensures RepairStepOk(w, v, pc, tag)
  {
  }

  lemma CloserElsewhere(w: World, v: World, pc: Pc, tag: string)
    requires pc.ReadReader? || pc.CheckMonoton? || pc.TombstoneClock? || pc.TombstoneInsert? || pc.CasReader?
    ensures RepairStepOk(w, v, pc, tag)
  {
  }

  lemma ScannerElsewhere(w: World, v: World, pc: Pc, tag: string)
    requires pc.GetBucket? || pc.CheckComplete? || pc.FindVisible? || pc.ConsumeClock? || pc.ConsumeCas?
    ensures RepairStepOk(w, v, pc, tag)
  {
  }

  lemma Elsewhere(w: World, v: World, pc: Pc, tag: string)
    requires InReader(pc) || InGetAndMark(pc) || pc.ReadInvis? || pc.ReadReader?
    ensures RepairStepOk(w, v, pc, tag)
  {
    if InReader(pc) || pc.ReadInvis? {
      InvisElsewhere(w, v, pc, tag);
    } else if pc.GetBucket? || pc.CheckComplete? || pc.FindVisible? || pc.ConsumeClock? || pc.ConsumeCas? {
      ScannerElsewhere(w, v, pc, tag);
    } else {
      CloserElsewhere(w, v, pc, tag);
    }
  }

  lemma EndsElsewhere(w: World, v: World, pc: Pc, tag: string)
    requires pc.Idle? || pc.AckRead? || pc.AckCas? || pc.ReadRepair? || pc.CasRepairFull? || pc.CasRepairWatched?
    ensures RepairStepOk(w, v, pc, tag)
  {
  }

  // An allocator or inserter leads where its watch still covers the bucket.
  lemma InserterRepairOk(w: World, v: World, p: nat, pc: Pc, tag: string)
    requires Inv(w) && Local(w, p, pc) && RepairLocal(w, pc)
    requires v == Apply(w, p, Act(w, pc, tag).0) && TimelyWrites(v)
    requires pc.MonotonRead? || pc.MonotonCas? || pc.PutClock? || pc.PutInsert?
    ensures RepairStepOk(w, v, pc, tag)
  {
    StepRelies(w, v, p, pc, tag);
    AllocatorRepairOk(w, v, p, pc, tag);
  }

  lemma StepRelies(w: World, v: World, p: nat, pc: Pc, tag: string)
    requires Inv(w) && Local(w, p, pc) && v == Apply(w, p, Act(w, pc, tag).0)
    ensures Inv(v) && Rely(w, v, p)
  {
    ActOk(w, p, pc, tag);
    EffectKeeps(w, p, Act(w, pc, tag).0);
  }

  lemma RepublisherRepairOk(w: World, v: World, p: nat, pc: Pc, tag: string)
    requires Inv(w) && Local(w, p, pc) && RepairLocal(w, pc) && pc.RepublishAck?
    requires v == Apply(w, p, Act(w, pc, tag).0) && TimelyWrites(v)
    ensures RepairStepOk(w, v, pc, tag)
  {
    StepRelies(w, v, p, pc, tag);
    AckRepairOk(w, v, p, pc);
  }

  // Each program point leads to the next one's repair assertion.
  lemma RepairActOk(w: World, v: World, p: nat, pc: Pc, tag: string)
    requires Inv(w) && Local(w, p, pc) && RepairLocal(w, pc) && TimelyWrites(w)
    requires v == Apply(w, p, Act(w, pc, tag).0) && TimelyWrites(v)
    ensures RepairStepOk(w, v, pc, tag)
  {
    if pc.MonotonRead? || pc.MonotonCas? || pc.PutClock? || pc.PutInsert? {
      InserterRepairOk(w, v, p, pc, tag);
    } else if pc.RepublishAck? {
      RepublisherRepairOk(w, v, p, pc, tag);
    } else if pc.ScanWatched? {
      ScanRepairOk(w, p, pc, tag);
    } else if pc.FindTombstone? || pc.FindFull? || pc.WaitClock? || pc.Sleeping? || pc.ReadWatched? {
      QuietRepairOk(w, p, pc, tag);
    } else if InReader(pc) || InGetAndMark(pc) || pc.ReadInvis? || pc.ReadReader? {
      Elsewhere(w, v, pc, tag);
    } else {
      EndsElsewhere(w, v, pc, tag);
    }
  }

  lemma OnlyRepairMoves(w: World, p: nat, e: Effect)
    requires !e.DoMoveRepair?
    ensures Apply(w, p, e).store.repair == w.store.repair
  {
  }

  lemma RepairMovesFrom(w: World, pc: Pc, c: Choice)
    ensures var e := ProcessStep(w, pc, c).0;
      e.DoMoveRepair? ==> (pc.CasRepairFull? || pc.CasRepairWatched?) && pc.bucket == e.original
  {
  }

  lemma RepairPointerOk(w: World, p: nat, pc: Pc, c: Choice)
    requires RepairLocal(w, pc)
    ensures var v := Apply(w, p, ProcessStep(w, pc, c).0);
      v.store.repair == w.store.repair
      || (v.store.repair == w.store.repair + 1 && BucketSettled(w, w.store.repair) && Closed(w, w.store.repair))
  {
    var e := ProcessStep(w, pc, c).0;
    RepairMovesFrom(w, pc, c);
    if !e.DoMoveRepair? { OnlyRepairMoves(w, p, e); }
  }

  lemma RepairChoiceOk(w: World, p: nat, pc: Pc, c: Choice)
    requires Inv(w) && Local(w, p, pc) && RepairLocal(w, pc)
    requires TimelyWrites(w) && TimelyWrites(Apply(w, p, ProcessStep(w, pc, c).0))
    ensures RepairLocal(Apply(w, p, ProcessStep(w, pc, c).0), ProcessStep(w, pc, c).1)
  {
    if c.Go? {
      RepairActOk(w, Apply(w, p, Act(w, pc, c.tag).0), p, pc, c.tag);
    } else {
      OtherChoiceRepairOk(w, Apply(w, p, ProcessStep(w, pc, c).0), pc, c);
    }
  }

  // A crash, a new call or an interrupted sleep.
  lemma OtherChoiceRepairOk(w: World, v: World, pc: Pc, c: Choice)
    requires RepairLocal(w, pc) && !c.Go? && TimelyWrites(v)
    requires v == w || v == w.(interrupted := true)
    requires c.Interrupt? && pc.Sleeping? ==> v.interrupted
    ensures RepairLocal(v, ProcessStep(w, pc, c).1)
  {
  }

  lemma NextRepairs(s: State, e: Event)
    requires StateInv(s) && TimelyWrites(Next(s, e).w) && (TimelyWrites(s.w) ==> RepairState(s))
    ensures RepairState(Next(s, e))
  {
    var t := Next(s, e);
    var p := NextKeeps(s, e);
    TimelyBefore(s.w, t.w, p);
    if e.Step? && e.p < |s.procs| {
      RepairPointerOk(s.w, e.p, s.procs[e.p], e.choice);
      RepairChoiceOk(s.w, e.p, s.procs[e.p], e.choice);
    }
    RepairedKept(s.w, t.w, p);
    forall q | 0 <= q < |t.procs| ensures RepairLocal(t.w, t.procs[q]) {
      if t.procs[q] == s.procs[q] { RepairLocalKept(s.w, t.w, p, s.procs[q]); }
    }
  }

  lemma {:induction false} RunRepairs(config: Config, now: int, n: nat, events: seq<Event>)
    requires TimelyWrites(Run(Init(config, now, n), events).w)
    ensures RepairState(Run(Init(config, now, n), events))
    decreases |events|
  {
    if |events| > 0 {
      var before := events[..|events| - 1];
      var s := Run(Init(config, now, n), before);
      RunInv(config, now, n, before);
      if TimelyWrites(s.w) { RunRepairs(config, now, n, before); }
      NextRepairs(s, events[|events| - 1]);
    }
  }

  // No stranding.  In every run whose writes into closed buckets are timely and whose
  // sleeps are not cut short, every unacked, never delivered message lies in a bucket the
  // repair pointer has not passed.
  lemma NoMessageIsStranded(s: State, i: int)
    requires QueueTheorems.Reachable(s) && TimelyWrites(s.w)
    requires i in s.w.store.rows && !s.w.store.rows[i].acked && s.w.store.rows[i].deliveryCount == 0
    ensures i >= 0 && BucketOf(s.w.config.bucketSize, i) >= s.w.store.repair
  {
    var config: Config, now: int, n: nat, events: seq<Event> :| s == Run(Init(config, now, n), events);
    RunInv(config, now, n, events);
    RunRepairs(config, now, n, events);
  }
}
