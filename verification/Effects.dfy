// Every effect keeps the world invariant and honours the rely condition.
module Effects {
  import opened Wrappers
  import opened Tables
  import opened RowLog
  import opened Machine
  import opened Invariants

  // A snapshot whose version is still current is the current row.
  lemma CurrentIfSameVersion(w: World, m: Message)
    requires LogInv(w) && Seen(w, m) && w.store.rows[m.index].version == m.row.version
    ensures w.store.rows[m.index] == m.row
    ensures |w.log[m.index]| == m.row.version
  {
    VersionLaw(w.log[m.index]);
  }

  // What is known of a row once its log has grown.
  lemma RowKept(w: World, v: World, i: int)
    requires LogInv(w) && LogInv(v) && i in w.log && i in v.log && w.log[i] <= v.log[i]
    ensures w.store.rows[i].deliveryCount <= v.store.rows[i].deliveryCount
    ensures w.store.rows[i].acked ==> v.store.rows[i].acked
    ensures w.store.rows[i].blob == v.store.rows[i].blob
  {
    OnlyForward(v.log[i], |w.log[i]| - 1, |v.log[i]| - 1);
    assert v.log[i][|w.log[i]| - 1] == Last(w.log[i]);
  }

  // The parts of the invariant that follow from the rely condition once the log and the
  // retired rows are accounted for.
  lemma RowsKept(w: World, v: World)
    requires LogInv(w) && LogInv(v)
    requires forall i :: i in w.log ==> i in v.log && w.log[i] <= v.log[i]
    ensures forall i :: Delivered(w, i) ==> Delivered(v, i)
    ensures forall i :: Acked(w, i) ==> Acked(v, i)
    ensures forall i :: i in w.store.rows ==> i in v.store.rows && w.store.rows[i].blob == v.store.rows[i].blob
  {
    forall i | i in w.store.rows
      ensures i in v.store.rows && w.store.rows[i].blob == v.store.rows[i].blob
      ensures Delivered(w, i) ==> Delivered(v, i)
      ensures Acked(w, i) ==> Acked(v, i)
    {
      RowKept(w, v, i);
    }
  }

  lemma LineageFrame(w: World, v: World)
    requires LineageInv(w) && v.store.rows == w.store.rows && v.log == w.log && v.parent == w.parent
    ensures LineageInv(v)
  {
    forall i | i in v.log && Retired(v.log[i]) ensures Copied(v, i) {
      assert Copied(w, i);
    }
  }

  lemma AllocateKeeps(w: World, p: nat, current: int)
    requires Inv(w)
    ensures var v := Apply(w, p, Allocate(current)); Inv(v) && Rely(w, v, p)
  {
    var v := Apply(w, p, Allocate(current));
    AllocateKeepsInv(w, p, current);
    SameLogRelies(w, v, p);
  }

  // A step that leaves rows, lineage, pointers and tombstones alone.
  lemma SameLogRelies(w: World, v: World, p: nat)
    requires v.config == w.config && v.now == w.now && v.log == w.log && v.parent == w.parent
    requires v.bumps == w.bumps && v.interrupted == w.interrupted
    requires v.store == w.store.(counter := v.store.counter) && v.store.counter >= w.store.counter
    requires forall n :: n in w.owner ==> n in v.owner && v.owner[n] == w.owner[n]
    requires forall n :: n in v.owner && n !in w.owner ==> v.owner[n] == p
    ensures Rely(w, v, p)
  {
  }

  lemma AllocateKeepsInv(w: World, p: nat, current: int)
    requires Inv(w)
    ensures Inv(Apply(w, p, Allocate(current)))
  {
    LineageFrame(w, Apply(w, p, Allocate(current)));
  }

  lemma InsertKeepsLineage(w: World, v: World, index: int, source: Option<int>)
    requires LineageInv(w) && index !in w.store.rows && w.store.rows.Keys == w.log.Keys
    requires v.store.rows.Keys == w.store.rows.Keys + {index}
    requires forall i :: i in w.store.rows ==> v.store.rows[i] == w.store.rows[i]
    requires v.log.Keys == w.log.Keys + {index} && !Retired(v.log[index])
    requires forall i :: i in w.log ==> v.log[i] == w.log[i]
    requires v.parent == if source.Some? then w.parent[index := source.value] else w.parent
    requires source.Some? ==> source.value in w.store.rows && source.value < index
                              && w.store.rows[source.value].blob == v.store.rows[index].blob
    ensures LineageInv(v)
    ensures forall n :: n in w.parent ==> n in v.parent && v.parent[n] == w.parent[n]
  {
    assert index !in w.parent;
    forall i | i in v.log && Retired(v.log[i]) ensures Copied(v, i) {
      assert Copied(w, i);
      var n :| n in w.parent && w.parent[n] == i;
      assert n in v.parent && v.parent[n] == i;
    }
  }

  lemma InsertKeeps(w: World, p: nat, index: int, row: Row, clock: int, source: Option<int>)
    requires Inv(w) && EffectOk(w, p, Insert(index, row, clock, source))
    ensures var v := Apply(w, p, Insert(index, row, clock, source)); Inv(v) && Rely(w, v, p)
    ensures var v := Apply(w, p, Insert(index, row, clock, source));
      index in v.log && (source.Some? ==> index in v.parent && v.parent[index] == source.value)
  {
    var v := Apply(w, p, Insert(index, row, clock, source));
    assert v.log[index] == [Entry(row, Inserted, clock, w.now, p, w.bumps)];
    assert !Retired(v.log[index]);
    InsertKeepsLineage(w, v, index, source);
    assert LogInv(v) && AllocationInv(v);
    RowsKept(w, v);
  }

  // Shared by consume and ack: the log of one row grows by one entry.
  ghost predicate Bumped(w: World, v: World, p: nat, i: int, e: Entry) {
    && i in w.log && |w.log[i]| >= 1 && Follows(Last(w.log[i]), e)
    && e.at == w.now && e.writer == p && e.bump == w.bumps
    && v == w.(store := w.store.(rows := w.store.rows[i := e.row]),
               bumps := w.bumps + 1,
               log := w.log[i := w.log[i] + [e]])
    && (e.kind == RepairAcked ==> Copied(w, i))
  }

  lemma BumpKeepsLog(w: World, v: World, p: nat, i: int, e: Entry)
    requires LogInv(w) && Bumped(w, v, p, i, e)
    ensures LogInv(v) && v.log[i] == w.log[i] + [e]
  {
    AppendIsValid(w.log[i], e);
    assert Last(v.log[i]) == e;
  }

  lemma BumpKeepsLineage(w: World, v: World, p: nat, i: int, e: Entry)
    requires LogInv(w) && LineageInv(w) && Bumped(w, v, p, i, e)
    ensures LineageInv(v)
  {
    BumpKeepsLog(w, v, p, i, e);
    RowsKept(w, v);
    forall j | j in v.log && Retired(v.log[j]) ensures Copied(v, j) {
      if j == i && e.kind != RepairAcked {
        var k :| 0 <= k < |v.log[i]| && v.log[i][k].kind == RepairAcked;
        assert w.log[i][k].kind == RepairAcked;
        assert Retired(w.log[i]);
      }
      assert Copied(w, j);
    }
  }

  lemma BumpKeeps(w: World, v: World, p: nat, i: int, e: Entry)
    requires Inv(w) && Bumped(w, v, p, i, e)
    ensures Inv(v) && Rely(w, v, p)
  {
    BumpKeepsInv(w, v, p, i, e);
    BumpRelies(w, v, p, i, e);
  }

  lemma BumpRelies(w: World, v: World, p: nat, i: int, e: Entry)
    requires Bumped(w, v, p, i, e)
    ensures Rely(w, v, p)
  {
    assert v.log[i] == w.log[i] + [e];
  }

  lemma BumpKeepsInv(w: World, v: World, p: nat, i: int, e: Entry)
    requires Inv(w) && Bumped(w, v, p, i, e)
    ensures Inv(v)
  {
    BumpKeepsLog(w, v, p, i, e);
    BumpKeepsLineage(w, v, p, i, e);
    RowsKept(w, v);
  }

  lemma ConsumeIsBump(w: World, p: nat, m: Message, clock: int, duration: int)
    requires LogInv(w) && EffectOk(w, p, DoConsume(m, clock, duration)) && Consumable(w.store, m)
    ensures var v := Apply(w, p, DoConsume(m, clock, duration));
      Bumped(w, v, p, m.index, Entry(v.store.rows[m.index], Consumed(duration), clock, w.now, p, w.bumps))
  {
    CurrentIfSameVersion(w, m);
  }

  lemma ConsumeKeeps(w: World, p: nat, m: Message, clock: int, duration: int)
    requires Inv(w) && EffectOk(w, p, DoConsume(m, clock, duration))
    ensures var v := Apply(w, p, DoConsume(m, clock, duration)); Inv(v) && Rely(w, v, p)
  {
    if Consumable(w.store, m) {
      var v := Apply(w, p, DoConsume(m, clock, duration));
      ConsumeIsBump(w, p, m, clock, duration);
      BumpKeeps(w, v, p, m.index, Entry(v.store.rows[m.index], Consumed(duration), clock, w.now, p, w.bumps));
    } else {
      SilentKeeps(w, p, Nothing);
    }
  }

  lemma AckIsBump(w: World, p: nat, m: Message, kind: Kind)
    requires LogInv(w) && EffectOk(w, p, DoAck(m, kind)) && Ackable(w.store, m)
    ensures var v := Apply(w, p, DoAck(m, kind));
      Bumped(w, v, p, m.index, Entry(v.store.rows[m.index], kind, w.now, w.now, p, w.bumps))
  {
    CurrentIfSameVersion(w, m);
  }

  lemma AckKeeps(w: World, p: nat, m: Message, kind: Kind)
    requires Inv(w) && EffectOk(w, p, DoAck(m, kind))
    ensures var v := Apply(w, p, DoAck(m, kind)); Inv(v) && Rely(w, v, p)
  {
    if Ackable(w.store, m) {
      var v := Apply(w, p, DoAck(m, kind));
      AckIsBump(w, p, m, kind);
      BumpKeeps(w, v, p, m.index, Entry(v.store.rows[m.index], kind, w.now, w.now, p, w.bumps));
    } else {
      SilentKeeps(w, p, Nothing);
    }
  }

  lemma TombstoneKeeps(w: World, p: nat, bucket: int, clock: int)
    requires Inv(w) && EffectOk(w, p, DoTombstone(bucket, clock))
    ensures var v := Apply(w, p, DoTombstone(bucket, clock)); Inv(v) && Rely(w, v, p)
  {
    TombstoneKeepsInv(w, p, bucket, clock);
  }

  lemma TombstoneKeepsInv(w: World, p: nat, bucket: int, clock: int)
    requires Inv(w) && EffectOk(w, p, DoTombstone(bucket, clock))
    ensures Inv(Apply(w, p, DoTombstone(bucket, clock)))
  {
    LineageFrame(w, Apply(w, p, DoTombstone(bucket, clock)));
  }

  lemma ReaderPointerKeeps(w: World, p: nat, original: int)
    requires Inv(w) && EffectOk(w, p, DoMoveReader(original))
    ensures var v := Apply(w, p, DoMoveReader(original)); Inv(v) && Rely(w, v, p)
  {
    LineageFrame(w, Apply(w, p, DoMoveReader(original)));
  }

  lemma RepairPointerKeeps(w: World, p: nat, original: int)
    requires Inv(w) && EffectOk(w, p, DoMoveRepair(original))
    ensures var v := Apply(w, p, DoMoveRepair(original)); Inv(v) && Rely(w, v, p)
  {
    LineageFrame(w, Apply(w, p, DoMoveRepair(original)));
  }

  lemma InvisPointerKeeps(w: World, p: nat, e: Effect)
    requires Inv(w) && EffectOk(w, p, e) && (e.DoLowerInvis? || e.DoMoveInvis?)
    ensures Inv(Apply(w, p, e)) && Rely(w, Apply(w, p, e), p)
  {
    LineageFrame(w, Apply(w, p, e));
  }

  lemma SilentKeeps(w: World, p: nat, e: Effect)
    requires Inv(w) && (e.Nothing? || e.WakeEarly?)
    ensures Inv(Apply(w, p, e)) && Rely(w, Apply(w, p, e), p)
  {
    LineageFrame(w, Apply(w, p, e));
  }

  // Every effect a process may have keeps the world invariant and is one the others
  // can rely on.
  lemma EffectKeeps(w: World, p: nat, e: Effect)
    requires Inv(w) && EffectOk(w, p, e)
    ensures Inv(Apply(w, p, e)) && Rely(w, Apply(w, p, e), p)
  {
    match e
    case Allocate(current) => AllocateKeeps(w, p, current);
    case Insert(index, row, clock, source) => InsertKeeps(w, p, index, row, clock, source);
    case DoConsume(m, clock, duration) => ConsumeKeeps(w, p, m, clock, duration);
    case DoAck(m, kind) => AckKeeps(w, p, m, kind);
    case DoTombstone(bucket, clock) => TombstoneKeeps(w, p, bucket, clock);
    case DoMoveReader(original) => ReaderPointerKeeps(w, p, original);
    case DoMoveRepair(original) => RepairPointerKeeps(w, p, original);
    case DoLowerInvis(_) => InvisPointerKeeps(w, p, e);
    case DoMoveInvis(_, _) => InvisPointerKeeps(w, p, e);
    case Nothing => SilentKeeps(w, p, e);
    case WakeEarly => SilentKeeps(w, p, e);
  }

  // ---- what the other processes know survives ----

  lemma SeenKept(w: World, v: World, p: nat, m: Message, clock: int)
    requires Rely(w, v, p) && SeenBefore(w, m, clock)
    ensures SeenBefore(v, m, clock)
  {
    assert v.log[m.index][m.row.version - 1] == w.log[m.index][m.row.version - 1];
  }

  lemma AllSeenKept(w: World, v: World, p: nat, seen: seq<Message>)
    requires Rely(w, v, p) && AllSeen(w, seen)
    ensures AllSeen(v, seen)
  {
    forall k | 0 <= k < |seen| ensures SeenBefore(v, seen[k], v.now) {
      SeenKept(w, v, p, seen[k], w.now);
    }
  }

  lemma LossesKept(w: World, v: World, p: nat, q: nat, call: Call)
    requires Rely(w, v, p) && LossesOk(w, q, call)
    ensures LossesOk(v, q, call)
  {
    forall j | 0 <= j < |call.lost| ensures LossPaid(v, q, call.start, call.lost[j]) {
      assert LossPaid(w, q, call.start, call.lost[j]);
    }
  }

  lemma NewerKept(w: World, v: World, p: nat, q: nat, call: Call, m: Message)
    requires Rely(w, v, p) && q != p && m.index in w.log && call.start <= w.bumps && NewerOk(w, q, call, m)
    ensures NewerOk(v, q, call, m)
  {
    forall k | 0 <= m.row.version <= k < |v.log[m.index]| ensures ByOther(v.log[m.index][k], q, call.start) {
      if k < |w.log[m.index]| { assert v.log[m.index][k] == w.log[m.index][k]; }
    }
  }

  lemma MarkKept(w: World, v: World, p: nat, q: nat, call: Call, mark: nat, m: Message)
    requires Rely(w, v, p) && q != p && MarkOk(w, q, call, mark, m) && m.index in w.log
    ensures MarkOk(v, q, call, mark, m)
  {
    NewerKept(w, v, p, q, call, m);
  }

  lemma MarksKept(w: World, v: World, p: nat, q: nat, call: Call, mark: nat, seen: seq<Message>)
    requires Rely(w, v, p) && q != p && MarksOk(w, q, call, mark, seen) && AllSeen(w, seen)
    ensures MarksOk(v, q, call, mark, seen)
  {
    LossesKept(w, v, p, q, call);
    forall k | 0 <= k < |seen| ensures MarkOk(v, q, call, mark, seen[k]) {
      assert SeenBefore(w, seen[k], w.now);
      MarkKept(w, v, p, q, call, mark, seen[k]);
    }
  }

  lemma JobKept(w: World, v: World, p: nat, job: Job)
    requires Rely(w, v, p) && JobOk(w, job)
    ensures JobOk(v, job)
  {
    if job.Republish? { AllSeenKept(w, v, p, job.watch.seen); }
  }

  ghost predicate RowsOnlyForward(w: World, v: World) {
    && (forall i :: Delivered(w, i) ==> Delivered(v, i))
    && (forall i :: Acked(w, i) ==> Acked(v, i))
  }

  predicate InReader(pc: Pc) {
    || pc.GetAtInvis? || pc.CheckAtInvis? || pc.GetInvisBucket? || pc.ScanInvis?
    || pc.CasLowerInvis? || pc.CasRaiseInvis?
  }

  predicate InGetAndMark(pc: Pc) {
    || pc.GetBucket? || pc.CheckComplete? || pc.CheckMonoton? || pc.TombstoneClock? || pc.TombstoneInsert?
    || pc.CasReader? || pc.FindVisible? || pc.ConsumeClock? || pc.ConsumeCas?
  }

  lemma InvisLocalKept(w: World, v: World, p: nat, q: nat, pc: Pc)
    requires Rely(w, v, p) && RowsOnlyForward(w, v) && Local(w, q, pc) && InReader(pc)
    ensures Local(v, q, pc)
  {
    if pc.CheckAtInvis? {
      SeenKept(w, v, p, pc.m, w.now);
    } else if pc.ScanInvis? {
      AllSeenKept(w, v, p, pc.seen);
    }
  }

  lemma ScanLocalKept(w: World, v: World, p: nat, q: nat, pc: Pc)
    requires Rely(w, v, p) && q != p && Local(w, q, pc) && (pc.CheckComplete? || pc.FindVisible?)
    ensures Local(v, q, pc)
  {
    AllSeenKept(w, v, p, pc.seen);
    MarksKept(w, v, p, q, pc.call, pc.mark, pc.seen);
  }

  lemma ConsumeLocalKept(w: World, v: World, p: nat, q: nat, pc: Pc)
    requires Rely(w, v, p) && q != p && Local(w, q, pc) && (pc.ConsumeClock? || pc.ConsumeCas?)
    ensures Local(v, q, pc)
  {
    SeenKept(w, v, p, pc.m, if pc.ConsumeClock? then w.now else pc.clock);
    if pc.caller.FromBucket? {
      LossesKept(w, v, p, q, pc.caller.call);
      MarkKept(w, v, p, q, pc.caller.call, pc.caller.mark, pc.m);
    }
  }

  lemma CloserLocalKept(w: World, v: World, p: nat, q: nat, pc: Pc)
    requires Rely(w, v, p) && Local(w, q, pc)
    requires pc.GetBucket? || pc.CheckMonoton? || pc.TombstoneClock? || pc.TombstoneInsert? || pc.CasReader?
    ensures Local(v, q, pc)
  {
    LossesKept(w, v, p, q, pc.call);
  }

  lemma ReaderLocalKept(w: World, v: World, p: nat, q: nat, pc: Pc)
    requires Rely(w, v, p) && q != p && Local(w, q, pc) && InGetAndMark(pc)
    ensures Local(v, q, pc)
  {
    if pc.CheckComplete? || pc.FindVisible? {
      ScanLocalKept(w, v, p, q, pc);
    } else if pc.ConsumeClock? || pc.ConsumeCas? {
      ConsumeLocalKept(w, v, p, q, pc);
    } else {
      CloserLocalKept(w, v, p, q, pc);
    }
  }

  lemma WriterLocalKept(w: World, v: World, p: nat, q: nat, pc: Pc)
    requires Rely(w, v, p) && RowsOnlyForward(w, v) && Local(w, q, pc) && q != p && !InReader(pc) && !InGetAndMark(pc)
    ensures Local(v, q, pc)
  {
    if pc.MonotonRead? || pc.MonotonCas? || pc.PutClock? || pc.PutInsert? {
      JobKept(w, v, p, pc.job);
    } else if pc.RepublishAck? || pc.ScanWatched? {
      AllSeenKept(w, v, p, pc.watch.seen);
    } else if pc.AckCas? {
      SeenKept(w, v, p, pc.m, w.log[pc.m.index][pc.m.row.version - 1].at);
    }
  }

  // The local assertions of every process other than the one that stepped survive.
  lemma LocalKept(w: World, v: World, p: nat, q: nat, pc: Pc)
    requires LogInv(w) && LogInv(v) && Rely(w, v, p) && q != p && Local(w, q, pc)
    ensures Local(v, q, pc)
  {
    if InReader(pc) {
      RowsKept(w, v);
      InvisLocalKept(w, v, p, q, pc);
    } else if InGetAndMark(pc) {
      ReaderLocalKept(w, v, p, q, pc);
    } else {
      RowsKept(w, v);
      WriterLocalKept(w, v, p, q, pc);
    }
  }
}
