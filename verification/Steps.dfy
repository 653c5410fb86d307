// Each program point does only permitted effects and reaches its next point with that
// point's assertion.
module Steps {
  import opened Buckets
  import opened Tables
  import opened RowLog
  import opened Machine
  import opened Invariants
  import opened Effects

  // ---- snapshots ----

  lemma RowIsSeen(w: World, i: int)
    requires LogInv(w) && i in w.store.rows
    ensures SeenBefore(w, Message(i, w.store.rows[i]), w.now)
    ensures |w.log[i]| == w.store.rows[i].version && w.store.rows[i].deliveryCount >= 0
  {
    VersionLaw(w.log[i]);
  }

  lemma BucketIsSeen(w: World, b: int)
    requires Inv(w) && b >= 0
    ensures AllSeen(w, GetMessages(w.store, w.config.bucketSize, b))
    ensures forall m :: m in GetMessages(w.store, w.config.bucketSize, b) ==>
      m.index in w.log && |w.log[m.index]| == m.row.version
    ensures |GetMessages(w.store, w.config.bucketSize, b)| == w.config.bucketSize ==>
      StartOf(w.config.bucketSize, b + 1) <= w.store.counter
    ensures b == 0 ==> forall m :: m in GetMessages(w.store, w.config.bucketSize, b) ==> m.index < w.config.bucketSize
  {
    var bs := w.config.bucketSize;
    var seen := GetMessages(w.store, bs, b);
    GetMessagesIsBucket(w.store, bs, b);
    StartOfNext(bs, b);
    forall k | 0 <= k < |seen| ensures SeenBefore(w, seen[k], w.now) {
      assert seen[k] in seen;
      RowIsSeen(w, seen[k].index);
      assert seen[k] == Message(seen[k].index, w.store.rows[seen[k].index]);
    }
    forall m | m in seen ensures m.index in w.log && |w.log[m.index]| == m.row.version {
      RowIsSeen(w, m.index);
    }
    if |seen| == bs {
      assert StartOf(bs, b + 1) - 1 in w.store.rows;
    }
    if b == 0 {
      forall m | m in seen ensures m.index < bs { InBucket(bs, m.index, 0); }
    }
  }

  // ---- allocation and insertion ----

  lemma MonotonStepOk(w: World, p: nat, pc: Pc, tag: string)
    requires Inv(w) && Local(w, p, pc) && (pc.MonotonRead? || pc.MonotonCas?)
    ensures StepOk(w, p, pc, tag)
  {
    if pc.MonotonCas? {
      AllocateKeeps(w, p, pc.current);
      var v := Apply(w, p, Allocate(pc.current));
      JobKept(w, v, p, pc.job);
      if w.store.counter == pc.current && pc.job.Republish? {
        assert SeenBefore(w, pc.job.watch.seen[pc.job.k], w.now);
      }
    }
  }

  lemma SeenPayload(w: World, m: Message)
    requires LogInv(w) && Seen(w, m)
    ensures m.index in w.store.rows && w.store.rows[m.index].blob == m.row.blob
    ensures m.row.deliveryCount > 0 ==> Delivered(w, m.index)
    ensures m.row.acked ==> Acked(w, m.index)
  {
    OnlyForward(w.log[m.index], m.row.version - 1, |w.log[m.index]| - 1);
  }

  lemma InsertStepOk(w: World, p: nat, pc: Pc, tag: string)
    requires Inv(w) && Local(w, p, pc) && (pc.PutClock? || pc.PutInsert?)
    ensures StepOk(w, p, pc, tag)
  {
    if pc.PutInsert? && pc.job.Republish? {
      var (e, next) := Act(w, pc, tag);
      var watch, k := pc.job.watch, pc.job.k;
      assert SeenBefore(w, watch.seen[k], w.now);
      SeenPayload(w, watch.seen[k]);
      InsertKeeps(w, p, e.index, e.row, e.clock, e.source);
      AllSeenKept(w, Apply(w, p, e), p, watch.seen);
    }
  }

  lemma RepublishAckAllowed(w: World, p: nat, watch: Watch, k: nat, copy: int)
    requires AllSeen(w, watch.seen) && Republishable(w, watch, k)
    requires copy in w.parent && w.parent[copy] == watch.seen[k].index
    ensures EffectOk(w, p, DoAck(watch.seen[k], RepairAcked))
  {
    assert SeenBefore(w, watch.seen[k], w.now);
    assert Copied(w, watch.seen[k].index);
  }

  lemma WatchKept(w: World, v: World, p: nat, watch: Watch)
    requires Rely(w, v, p) && WatchOk(w, watch)
    ensures WatchOk(v, watch)
  {
    AllSeenKept(w, v, p, watch.seen);
  }

  lemma RepublishAckOk(w: World, p: nat, pc: Pc, tag: string)
    requires Inv(w) && Local(w, p, pc) && pc.RepublishAck?
    ensures StepOk(w, p, pc, tag)
  {
    var e := DoAck(pc.watch.seen[pc.k], RepairAcked);
    RepublishAckAllowed(w, p, pc.watch, pc.k, pc.copy);
    AckKeeps(w, p, e.m, RepairAcked);
    WatchKept(w, Apply(w, p, e), p, pc.watch);
  }

  // ---- the invisibility pointer ----

  lemma AtInvisOk(w: World, p: nat, pc: Pc, tag: string)
    requires Inv(w) && Local(w, p, pc) && (pc.ReadInvis? || pc.GetAtInvis?)
    ensures StepOk(w, p, pc, tag)
  {
    if pc.GetAtInvis? && pc.pointer in w.store.rows { RowIsSeen(w, pc.pointer); }
  }

  lemma CheckAtInvisOk(w: World, p: nat, pc: Pc, tag: string)
    requires Inv(w) && Local(w, p, pc) && pc.CheckAtInvis?
    ensures StepOk(w, p, pc, tag)
  {
    SeenPayload(w, pc.m);
  }

  lemma InvisBucketOk(w: World, p: nat, pc: Pc, tag: string)
    requires Inv(w) && Local(w, p, pc) && pc.GetInvisBucket?
    ensures StepOk(w, p, pc, tag)
  {
    BucketIsSeen(w, InvisBucket(w.config.bucketSize, pc.pointer));
    if pc.pointer < w.config.bucketSize { SmallPointer(w.config.bucketSize, pc.pointer); }
  }

  lemma SmallPointer(bucketSize: int, pointer: int)
    requires bucketSize >= 1 && pointer < bucketSize
    ensures InvisBucket(bucketSize, pointer) == 0
  {
    if pointer > 0 { InBucket(bucketSize, pointer, 0); }
  }

  // A jump to the next bucket leaves bucket 0 for good.
  lemma JumpLeavesBucketZero(config: Config, pointer: int)
    ensures NextBucketStart(config, pointer) >= config.bucketSize
  {
    StartOfMonotone(config.bucketSize, 1, InvisBucket(config.bucketSize, pointer) + 1);
  }

  lemma ScanInvisOk(w: World, p: nat, pc: Pc, tag: string)
    requires Inv(w) && Local(w, p, pc) && pc.ScanInvis?
    ensures StepOk(w, p, pc, tag)
  {
    if pc.k >= |pc.seen| {
      JumpLeavesBucketZero(w.config, pc.pointer);
    } else {
      assert SeenBefore(w, pc.seen[pc.k], w.now);
      SeenPayload(w, pc.seen[pc.k]);
    }
  }

  lemma CasInvisOk(w: World, p: nat, pc: Pc, tag: string)
    requires Inv(w) && Local(w, p, pc) && (pc.CasLowerInvis? || pc.CasRaiseInvis?)
    ensures StepOk(w, p, pc, tag)
  {
  }

  // ---- getAndMark ----

  lemma GetBucketOk(w: World, p: nat, pc: Pc, tag: string)
    requires Inv(w) && Local(w, p, pc) && (pc.ReadReader? || pc.GetBucket?)
    ensures StepOk(w, p, pc, tag)
  {
    if pc.GetBucket? {
      BucketIsSeen(w, pc.bucket);
      var seen := GetMessages(w.store, w.config.bucketSize, pc.bucket);
      forall k | 0 <= k < |seen| ensures MarkOk(w, p, pc.call, w.bumps, seen[k]) {
        assert seen[k] in seen;
      }
    }
  }

  lemma CheckStepOk(w: World, p: nat, pc: Pc, tag: string)
    requires Inv(w) && Local(w, p, pc) && (pc.CheckComplete? || pc.CheckMonoton?)
    ensures StepOk(w, p, pc, tag)
  {
    if pc.CheckMonoton? { BeforeBucket(w.config.bucketSize, w.store.counter, pc.bucket + 1); }
  }

  lemma TombstoneStepOk(w: World, p: nat, pc: Pc, tag: string)
    requires Inv(w) && Local(w, p, pc) && (pc.TombstoneClock? || pc.TombstoneInsert? || pc.CasReader?)
    ensures StepOk(w, p, pc, tag)
  {
  }

  lemma FindStepOk(w: World, p: nat, pc: Pc, tag: string)
    requires Inv(w) && Local(w, p, pc) && (pc.FindVisible? || pc.ConsumeClock?)
    ensures StepOk(w, p, pc, tag)
  {
    if pc.FindVisible? && pc.k < |pc.seen| {
      assert SeenBefore(w, pc.seen[pc.k], w.now);
      assert MarkOk(w, p, pc.call, pc.mark, pc.seen[pc.k]);
    }
  }

  lemma LostConsumeIsBumped(w: World, m: Message)
    requires LogInv(w) && Seen(w, m) && !m.row.acked && !Consumable(w.store, m)
    ensures |w.log[m.index]| > m.row.version
  {
    VersionLaw(w.log[m.index]);
  }

  // A lost consume means the row has moved on since the snapshot, so the call has seen
  // one more successful bump than before.
  lemma ConsumeCasOk(w: World, p: nat, pc: Pc, tag: string)
    requires Inv(w) && Local(w, p, pc) && pc.ConsumeCas?
    ensures StepOk(w, p, pc, tag)
  {
    if !Consumable(w.store, pc.m) {
      LostConsumeIsBumped(w, pc.m);
    }
  }

  // ---- ack and repair ----

  lemma AckStepOk(w: World, p: nat, pc: Pc, tag: string)
    requires Inv(w) && Local(w, p, pc) && (pc.AckRead? || pc.AckCas?)
    ensures StepOk(w, p, pc, tag)
  {
    if pc.AckRead? && pc.receipt.index in w.store.rows { RowIsSeen(w, pc.receipt.index); }
  }

  // A bucket read full and acked is full and acked.
  lemma FullReadIsFullAcked(w: World, b: int)
    requires Inv(w) && b >= 0
    requires var seen := GetMessages(w.store, w.config.bucketSize, b);
      |seen| == w.config.bucketSize && forall m :: m in seen ==> m.row.acked
    ensures FullAcked(w, b)
  {
    var bs := w.config.bucketSize;
    GetMessagesIsBucket(w.store, bs, b);
    StartOfMonotone(bs, 0, b);
    forall i | StartOf(bs, b) <= i < StartOf(bs, b + 1) ensures Acked(w, i) {
      InBucket(bs, i, b);
      assert Message(i, w.store.rows[i]) in GetMessages(w.store, bs, b);
    }
  }

  lemma FindBucketOk(w: World, p: nat, pc: Pc, tag: string)
    requires Inv(w) && Local(w, p, pc)
    requires pc.Idle? || pc.ReadRepair? || pc.FindTombstone? || pc.FindFull?
    ensures StepOk(w, p, pc, tag)
  {
    if pc.FindFull? && Act(w, pc, tag).1.CasRepairFull? { FullReadIsFullAcked(w, pc.bucket); }
  }

  lemma WaitOk(w: World, p: nat, pc: Pc, tag: string)
    requires Inv(w) && Local(w, p, pc) && (pc.WaitClock? || pc.Sleeping?)
    ensures StepOk(w, p, pc, tag)
  {
  }

  lemma CasRepairOk(w: World, p: nat, pc: Pc, tag: string)
    requires Inv(w) && Local(w, p, pc) && (pc.CasRepairFull? || pc.CasRepairWatched?)
    ensures StepOk(w, p, pc, tag)
  {
  }

  lemma WatchStepOk(w: World, p: nat, pc: Pc, tag: string)
    requires Inv(w) && Local(w, p, pc) && (pc.ReadWatched? || pc.ScanWatched?)
    ensures StepOk(w, p, pc, tag)
  {
    if pc.ReadWatched? { BucketIsSeen(w, pc.bucket); }
  }

  lemma WriterActOk(w: World, p: nat, pc: Pc, tag: string)
    requires Inv(w) && Local(w, p, pc) && !InReader(pc) && !InGetAndMark(pc)
    ensures StepOk(w, p, pc, tag)
  {
    if pc.MonotonRead? || pc.MonotonCas? {
      MonotonStepOk(w, p, pc, tag);
    } else if pc.PutClock? || pc.PutInsert? {
      InsertStepOk(w, p, pc, tag);
    } else if pc.RepublishAck? {
      RepublishAckOk(w, p, pc, tag);
    } else if pc.ReadInvis? {
      AtInvisOk(w, p, pc, tag);
    } else if pc.ReadReader? {
      GetBucketOk(w, p, pc, tag);
    } else if pc.AckRead? || pc.AckCas? {
      AckStepOk(w, p, pc, tag);
    } else if pc.ReadWatched? || pc.ScanWatched? {
      WatchStepOk(w, p, pc, tag);
    } else if pc.WaitClock? || pc.Sleeping? {
      WaitOk(w, p, pc, tag);
    } else if pc.CasRepairFull? || pc.CasRepairWatched? {
      CasRepairOk(w, p, pc, tag);
    } else {
      FindBucketOk(w, p, pc, tag);
    }
  }

  lemma InvisActOk(w: World, p: nat, pc: Pc, tag: string)
    requires Inv(w) && Local(w, p, pc) && InReader(pc)
    ensures StepOk(w, p, pc, tag)
  {
    if pc.ScanInvis? {
      ScanInvisOk(w, p, pc, tag);
    } else if pc.CasLowerInvis? || pc.CasRaiseInvis? {
      CasInvisOk(w, p, pc, tag);
    } else if pc.CheckAtInvis? {
      CheckAtInvisOk(w, p, pc, tag);
    } else if pc.GetInvisBucket? {
      InvisBucketOk(w, p, pc, tag);
    } else {
      AtInvisOk(w, p, pc, tag);
    }
  }

  lemma ReaderActOk(w: World, p: nat, pc: Pc, tag: string)
    requires Inv(w) && Local(w, p, pc) && InGetAndMark(pc)
    ensures StepOk(w, p, pc, tag)
  {
    if pc.GetBucket? {
      GetBucketOk(w, p, pc, tag);
    } else if pc.CheckComplete? || pc.CheckMonoton? {
      CheckStepOk(w, p, pc, tag);
    } else if pc.TombstoneClock? || pc.TombstoneInsert? || pc.CasReader? {
      TombstoneStepOk(w, p, pc, tag);
    } else if pc.ConsumeCas? {
      ConsumeCasOk(w, p, pc, tag);
    } else {
      FindStepOk(w, p, pc, tag);
    }
  }

  // Every step of every program point.
  lemma ActOk(w: World, p: nat, pc: Pc, tag: string)
    requires Inv(w) && Local(w, p, pc)
    ensures StepOk(w, p, pc, tag)
  {
    if InReader(pc) {
      InvisActOk(w, p, pc, tag);
    } else if InGetAndMark(pc) {
      ReaderActOk(w, p, pc, tag);
    } else {
      WriterActOk(w, p, pc, tag);
    }
  }

  // ---- whole runs ----

  ghost predicate StateInv(s: State) {
    Inv(s.w) && forall q :: 0 <= q < |s.procs| ==> Local(s.w, q, s.procs[q])
  }

  lemma TickKeeps(w: World, millis: nat)
    requires Inv(w)
    ensures var v := w.(now := w.now + millis); Inv(v) && forall p: nat :: Rely(w, v, p)
  {
    LineageFrame(w, w.(now := w.now + millis));
  }

  lemma ChoiceOk(w: World, p: nat, pc: Pc, c: Choice)
    requires Inv(w) && Local(w, p, pc)
    ensures var (e, next) := ProcessStep(w, pc, c);
      EffectOk(w, p, e) && Local(Apply(w, p, e), p, next)
  {
    match c
    case Go(tag) => ActOk(w, p, pc, tag);
    case Interrupt =>
    case Begin(request) =>
    case Crash =>
  }

  lemma TickStateKeeps(s: State, millis: nat)
    requires StateInv(s)
    ensures StateInv(Next(s, Tick(millis))) && Rely(s.w, Next(s, Tick(millis)).w, 0)
  {
    var t := Next(s, Tick(millis));
    TickKeeps(s.w, millis);
    forall q | 0 <= q < |s.procs| ensures Local(t.w, q, t.procs[q]) {
      LocalKept(s.w, t.w, q + 1, q, s.procs[q]);
    }
  }

  lemma StepStateKeeps(s: State, p: nat, c: Choice)
    requires StateInv(s) && p < |s.procs|
    ensures StateInv(Next(s, Step(p, c))) && Rely(s.w, Next(s, Step(p, c)).w, p)
  {
    var t := Next(s, Step(p, c));
    var (effect, pc) := ProcessStep(s.w, s.procs[p], c);
    ChoiceOk(s.w, p, s.procs[p], c);
    EffectKeeps(s.w, p, effect);
    forall q | 0 <= q < |s.procs| ensures Local(t.w, q, t.procs[q]) {
      if q != p { LocalKept(s.w, t.w, p, q, s.procs[q]); }
    }
  }

  // Every event keeps every assertion, and is one step of some process as far as the
  // others can tell.
  lemma NextKeeps(s: State, e: Event) returns (p: nat)
    requires StateInv(s)
    ensures StateInv(Next(s, e)) && Rely(s.w, Next(s, e).w, p)
    ensures e.Step? && e.p < |s.procs| ==> p == e.p
  {
    if e.Step? && e.p < |s.procs| {
      p := e.p;
      StepStateKeeps(s, e.p, e.choice);
    } else {
      p := 0;
      TickStateKeeps(s, if e.Tick? then e.millis else 0);
    }
  }

  // Every reachable state satisfies the world invariant and every local assertion.
  lemma {:induction false} RunInv(config: Config, now: int, n: nat, events: seq<Event>)
    ensures StateInv(Run(Init(config, now, n), events))
    decreases |events|
  {
    if |events| > 0 {
      RunInv(config, now, n, events[..|events| - 1]);
      var p := NextKeeps(Run(Init(config, now, n), events[..|events| - 1]), events[|events| - 1]);
    }
  }
}
