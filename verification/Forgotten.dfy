// The same loss in the concurrent machine, and for good.  A delivered message behind the
// reader is never delivered again once no reader is at work in its bucket, if no scan
// comes to it: a message of bucket 0 whose lease ran out and that the stored pointer does
// not name, a message that is not first in its bucket, or a first message behind another
// one that was acked without having been delivered.
module Forgotten {
  import opened Buckets
  import opened Tables
  import opened RowLog
  import opened Machine
  import opened Invariants
  import opened Effects
  import opened Steps
  import QueueTheorems

  // ---- scans that stop ----

  // A repair acks the originals it republishes.  One that is first in its bucket stops
  // every scan that comes to it: it has not been delivered, and the scan looks at that
  // before it looks at the ack.
  predicate Blocks(w: World, c: int) {
    var x := StartOf(w.config.bucketSize, c);
    c >= 1 && x in w.store.rows && w.store.rows[x].acked && w.store.rows[x].deliveryCount == 0
  }

  // The process scans beyond index x.
  predicate Past(pc: Pc, x: int) {
    match pc
    case GetAtInvis(_, pointer) => pointer > x
    case CheckAtInvis(_, m) => m.index >= x
    case GetInvisBucket(_, pointer) => pointer >= x
    case ScanInvis(_, pointer, _, _) => pointer >= x
    case _ => false
  }

  // No scan gets beyond the start of bucket c.
  ghost predicate Stopped(s: State, c: int) {
    Blocks(s.w, c) && forall q :: 0 <= q < |s.procs| ==> !Past(s.procs[q], StartOf(s.w.config.bucketSize, c))
  }

  lemma BlockStays(w: World, v: World, p: nat, c: int)
    requires Inv(w) && Inv(v) && Rely(w, v, p) && Blocks(w, c)
    ensures Blocks(v, c)
  {
    var x := StartOf(w.config.bucketSize, c);
    assert w.log[x] <= v.log[x];
    QueueTheorems.AckedRowKept(w, v, x);
  }

  // The scan's next pointer is at most the start of the first bucket after it.
  lemma NextIsAtMost(bucketSize: int, pointer: int, c: int)
    requires bucketSize >= 1 && c >= 1 && pointer < StartOf(bucketSize, c)
    ensures InvisBucket(bucketSize, pointer) < c
    ensures StartOf(bucketSize, InvisBucket(bucketSize, pointer) + 1) <= StartOf(bucketSize, c)
  {
    var b := InvisBucket(bucketSize, pointer);
    if b >= c {
      InBucket(bucketSize, pointer, b);
      StartOfMonotone(bucketSize, c, b);
    }
    StartOfMonotone(bucketSize, b + 1, c);
  }

  lemma StaysStopped(w: World, p: nat, pc: Pc, c: Choice, b: int)
    requires Inv(w) && Local(w, p, pc) && Blocks(w, b) && !Past(pc, StartOf(w.config.bucketSize, b))
    ensures !Past(ProcessStep(w, pc, c).1, StartOf(w.config.bucketSize, b))
  {
    StartOfMonotone(w.config.bucketSize, 1, b);
    if c.Go? {
      if InReader(pc) || pc.ReadInvis? {
        ScanStaysStopped(w, p, pc, c.tag, b);
      } else {
        LeavesScans(w, pc, c.tag, StartOf(w.config.bucketSize, b));
      }
    }
  }

  lemma ScanStaysStopped(w: World, p: nat, pc: Pc, tag: string, b: int)
    requires Inv(w) && Local(w, p, pc) && Blocks(w, b) && !Past(pc, StartOf(w.config.bucketSize, b))
    requires InReader(pc) || pc.ReadInvis?
    requires StartOf(w.config.bucketSize, 1) <= StartOf(w.config.bucketSize, b)
    ensures !Past(Act(w, pc, tag).1, StartOf(w.config.bucketSize, b))
  {
    if pc.ScanInvis? { NextIsAtMost(w.config.bucketSize, pc.pointer, b); }
  }

  lemma LeavesScans(w: World, pc: Pc, tag: string, x: int)
    requires !InReader(pc) && !pc.ReadInvis?
    ensures !Past(Act(w, pc, tag).1, x)
  {
  }

  lemma NextStaysStopped(s: State, e: Event, c: int)
    requires StateInv(s) && Stopped(s, c)
    ensures Stopped(Next(s, e), c)
  {
    var p := NextKeeps(s, e);
    BlockStays(s.w, Next(s, e).w, p, c);
    if e.Step? && e.p < |s.procs| { StaysStopped(s.w, e.p, s.procs[e.p], e.choice, c); }
  }

  // A first message acked without having been delivered stops every scan before it for
  // good, in every continuation.
  lemma {:induction false} ScansStopForGood(s: State, events: seq<Event>, c: int)
    requires QueueTheorems.Reachable(s) && Stopped(s, c)
    ensures StateInv(Run(s, events)) && Stopped(Run(s, events), c)
    decreases |events|
  {
    if |events| == 0 {
      QueueTheorems.ReachableInv(s);
    } else {
      ScansStopForGood(s, events[..|events| - 1], c);
      var u := Run(s, events[..|events| - 1]);
      var p := NextKeeps(u, events[|events| - 1]);
      NextStaysStopped(u, events[|events| - 1], c);
    }
  }

  // ---- messages no scan comes to ----

  predicate Lists(seen: seq<Message>, i: int) {
    exists k :: 0 <= k < |seen| && seen[k].index == i
  }

  // The process may still deliver message i of bucket b, or move the pointer onto it.
  predicate Near(pc: Pc, i: int, b: int) {
    match pc
    case GetAtInvis(_, pointer) => pointer == i
    case CheckAtInvis(_, m) => m.index == i
    case CasLowerInvis(_, _, dest) => b == 0 && dest == i
    case CasRaiseInvis(_, _, dest) => b == 0 && dest == i
    case GetBucket(_, bucket, _) => bucket == b
    case CheckComplete(_, bucket, _, _, seen, _) => bucket == b || Lists(seen, i)
    case CheckMonoton(_, bucket, _) => bucket == b
    case TombstoneClock(_, bucket, _) => bucket == b
    case TombstoneInsert(_, bucket, _, _) => bucket == b
    case CasReader(_, bucket, _) => bucket == b
    case FindVisible(_, bucket, _, _, seen, _) => bucket == b || Lists(seen, i)
    case ConsumeClock(_, m, caller) => m.index == i || (caller.FromBucket? && caller.bucket == b)
    case ConsumeCas(_, m, _, caller) => m.index == i || (caller.FromBucket? && caller.bucket == b)
    case _ => false
  }

  predicate Behind(w: World, i: int, b: int) {
    i in w.store.rows && i >= 0 && BucketOf(w.config.bucketSize, i) == b && 0 <= b < w.store.reader
  }

  // Its lease ran out, and the stored pointer names another message.
  predicate Unnamed(w: World, i: int) {
    i in w.store.rows && w.store.rows[i].Visible(w.now) && w.store.invis != i
  }

  ghost predicate OutOfReach(s: State, i: int, b: int) {
    && Behind(s.w, i, b)
    && (forall q :: 0 <= q < |s.procs| ==> !Near(s.procs[q], i, b))
    && if b == 0 then Unnamed(s.w, i)
       else i != StartOf(s.w.config.bucketSize, b) || exists c :: c < b && Stopped(s, c)
  }

  // A multiple of the bucket size inside bucket b is the bucket's first index.
  lemma OnlyOneStart(bucketSize: int, i: int, b: int, c: int)
    requires bucketSize >= 1 && i >= 0 && BucketOf(bucketSize, i) == b && i == StartOf(bucketSize, c)
    ensures i == StartOf(bucketSize, b)
  {
    InBucket(bucketSize, i, b);
    if c < b {
      StartOfMonotone(bucketSize, c, b);
    } else if c > b {
      StartOfMonotone(bucketSize, b + 1, c);
    }
  }

  // The stored pointer is not on it, and no scan goes on to it.
  predicate Avoids(w: World, pc: Pc, i: int) {
    w.store.invis != i && (pc.ScanInvis? ==> NextBucketStart(w.config, pc.pointer) != i)
  }

  lemma ScanAvoids(s: State, q: nat, i: int, b: int)
    requires StateInv(s) && OutOfReach(s, i, b) && q < |s.procs|
    ensures Avoids(s.w, s.procs[q], i)
  {
    var w, pc := s.w, s.procs[q];
    InBucket(w.config.bucketSize, i, b);
    if b >= 1 { StartOfMonotone(w.config.bucketSize, 1, b); }
    if pc.ScanInvis? && NextBucketStart(w.config, pc.pointer) == i {
      var n := InvisBucket(w.config.bucketSize, pc.pointer) + 1;
      StartOfMonotone(w.config.bucketSize, 1, n);
      OnlyOneStart(w.config.bucketSize, i, b, n);
      var c :| c < b && Stopped(s, c);
      NextIsAtMost(w.config.bucketSize, pc.pointer, c);
      StartOfMonotone(w.config.bucketSize, c + 1, b);
      StartOfNext(w.config.bucketSize, c);
    }
  }

  // Once a row's lease has run out, so has every earlier lease of the row.
  lemma EarlierLeasesAreOver(log: seq<Entry>, k: nat, now: int)
    requires ValidLog(log) && k < |log| && Last(log).row.Visible(now) && Last(log).at <= now
    ensures log[k].row.Visible(now)
    decreases |log| - k
  {
    if k < |log| - 1 {
      EarlierLeasesAreOver(log, k + 1, now);
      OnlyForward(log, k + 1, |log| - 1);
      assert FollowsAt(log, k + 1);
      LogClock(log, k + 1);
    }
  }

  lemma SnapshotIsOver(w: World, m: Message)
    requires LogInv(w) && SeenBefore(w, m, w.now) && Unnamed(w, m.index)
    ensures m.row.Visible(w.now)
  {
    EarlierLeasesAreOver(w.log[m.index], m.row.version - 1, w.now);
  }

  lemma BucketReadMisses(w: World, i: int, b: int, c: int)
    requires Inv(w) && Behind(w, i, b) && c >= 0 && c != b
    ensures !Lists(GetMessages(w.store, w.config.bucketSize, c), i)
  {
    var seen := GetMessages(w.store, w.config.bucketSize, c);
    GetMessagesIsBucket(w.store, w.config.bucketSize, c);
    forall k | 0 <= k < |seen| ensures seen[k].index != i {
      assert seen[k] in seen;
    }
  }

  lemma InvisStepStaysAway(w: World, p: nat, pc: Pc, tag: string, i: int, b: int)
    requires Inv(w) && Local(w, p, pc) && !Near(pc, i, b) && Avoids(w, pc, i)
    requires b == 0 ==> Unnamed(w, i)
    requires InReader(pc) || pc.ReadInvis?
    ensures !Near(Act(w, pc, tag).1, i, b)
  {
    if pc.ScanInvis? {
      ScanInvisStaysAway(w, p, pc, tag, i, b);
    } else if pc.GetInvisBucket? || pc.CasLowerInvis? || pc.CasRaiseInvis? {
      ParkStaysAway(w, pc, tag, i, b);
    }
  }

  lemma ParkStaysAway(w: World, pc: Pc, tag: string, i: int, b: int)
    requires !Near(pc, i, b) && (pc.GetInvisBucket? || pc.CasLowerInvis? || pc.CasRaiseInvis?)
    ensures !Near(Act(w, pc, tag).1, i, b)
  {
  }

  lemma ScanInvisStaysAway(w: World, p: nat, pc: Pc, tag: string, i: int, b: int)
    requires Inv(w) && Local(w, p, pc) && Avoids(w, pc, i) && pc.ScanInvis? && (b == 0 ==> Unnamed(w, i))
    ensures !Near(Act(w, pc, tag).1, i, b)
  {
    if pc.k < |pc.seen| && pc.seen[pc.k].index == i && b == 0 { SnapshotIsOver(w, pc.seen[pc.k]); }
  }

  lemma BucketStepStaysAway(w: World, p: nat, pc: Pc, tag: string, i: int, b: int)
    requires Inv(w) && Local(w, p, pc) && Behind(w, i, b) && !Near(pc, i, b)
    requires pc.ReadReader? || pc.GetBucket? || pc.CheckMonoton? || pc.TombstoneClock? || pc.TombstoneInsert?
          || pc.CasReader?
    ensures !Near(Act(w, pc, tag).1, i, b)
  {
    if pc.GetBucket? { BucketReadMisses(w, i, b, pc.bucket); }
  }

  lemma ScanStepStaysAway(w: World, p: nat, pc: Pc, tag: string, i: int, b: int)
    requires Inv(w) && Local(w, p, pc) && Behind(w, i, b) && !Near(pc, i, b)
    requires pc.CheckComplete? || pc.FindVisible? || pc.ConsumeClock? || pc.ConsumeCas?
    ensures !Near(Act(w, pc, tag).1, i, b)
  {
  }

  lemma OtherStepStaysAway(w: World, pc: Pc, tag: string, i: int, b: int)
    requires !InReader(pc) && !InGetAndMark(pc) && !pc.ReadInvis? && !pc.ReadReader?
    ensures !Near(Act(w, pc, tag).1, i, b)
  {
  }

  lemma StepStaysAway(w: World, p: nat, pc: Pc, c: Choice, i: int, b: int)
    requires Inv(w) && Local(w, p, pc) && Behind(w, i, b) && !Near(pc, i, b) && Avoids(w, pc, i)
    requires b == 0 ==> Unnamed(w, i)
    ensures !Near(ProcessStep(w, pc, c).1, i, b)
  {
    if c.Go? {
      if InReader(pc) || pc.ReadInvis? {
        InvisStepStaysAway(w, p, pc, c.tag, i, b);
      } else if pc.CheckComplete? || pc.FindVisible? || pc.ConsumeClock? || pc.ConsumeCas? {
        ScanStepStaysAway(w, p, pc, c.tag, i, b);
      } else if InGetAndMark(pc) || pc.ReadReader? {
        BucketStepStaysAway(w, p, pc, c.tag, i, b);
      } else {
        OtherStepStaysAway(w, pc, c.tag, i, b);
      }
    }
  }

  // Only a consume of the row itself delivers it or gives it a lease.
  lemma OnlyConsumeDelivers(w: World, p: nat, e: Effect, i: int)
    requires i in w.store.rows && !(e.DoConsume? && e.m.index == i)
    ensures var v := Apply(w, p, e);
      && i in v.store.rows && v.store.rows[i].deliveryCount == w.store.rows[i].deliveryCount
      && v.store.rows[i].nextVisible == w.store.rows[i].nextVisible
  {
  }

  lemma ConsumesOnlyNear(w: World, pc: Pc, c: Choice, i: int, b: int)
    requires !Near(pc, i, b)
    ensures var e := ProcessStep(w, pc, c).0; !(e.DoConsume? && e.m.index == i)
  {
    if c.Go? && !pc.ConsumeCas? { OthersConsumeNothing(w, pc, c.tag); }
  }

  lemma OthersConsumeNothing(w: World, pc: Pc, tag: string)
    requires !pc.ConsumeCas?
    ensures !Act(w, pc, tag).0.DoConsume?
  {
  }

  // Only a compare-and-set onto it makes the pointer name it.
  lemma PointerStaysAway(w: World, p: nat, pc: Pc, c: Choice, i: int)
    requires !Near(pc, i, 0) && w.store.invis != i
    ensures Apply(w, p, ProcessStep(w, pc, c).0).store.invis != i
  {
    if c.Go? && !pc.CasLowerInvis? && !pc.CasRaiseInvis? { OthersMoveNoPointer(w, p, pc, c.tag); }
  }

  lemma OthersMoveNoPointer(w: World, p: nat, pc: Pc, tag: string)
    requires !pc.CasLowerInvis? && !pc.CasRaiseInvis?
    ensures Apply(w, p, Act(w, pc, tag).0).store.invis == w.store.invis
  {
  }

  lemma NextStaysBehind(s: State, e: Event, i: int, b: int)
    requires StateInv(s) && OutOfReach(s, i, b)
    ensures var t := Next(s, e);
      && Behind(t.w, i, b) && t.w.store.rows[i].deliveryCount == s.w.store.rows[i].deliveryCount
      && t.w.store.rows[i].nextVisible == s.w.store.rows[i].nextVisible
      && forall q :: 0 <= q < |t.procs| ==> !Near(t.procs[q], i, b)
  {
    var p := NextKeeps(s, e);
    if e.Step? && e.p < |s.procs| {
      var pc := s.procs[e.p];
      ScanAvoids(s, e.p, i, b);
      StepStaysAway(s.w, e.p, pc, e.choice, i, b);
      ConsumesOnlyNear(s.w, pc, e.choice, i, b);
      OnlyConsumeDelivers(s.w, e.p, ProcessStep(s.w, pc, e.choice).0, i);
    }
  }

  lemma NextStaysOutOfReach(s: State, e: Event, i: int, b: int)
    requires StateInv(s) && OutOfReach(s, i, b)
    ensures OutOfReach(Next(s, e), i, b)
    ensures Next(s, e).w.store.rows[i].deliveryCount == s.w.store.rows[i].deliveryCount
  {
    var p := NextKeeps(s, e);
    NextStaysBehind(s, e, i, b);
    if b == 0 {
      if e.Step? && e.p < |s.procs| { PointerStaysAway(s.w, e.p, s.procs[e.p], e.choice, i); }
    } else if i == StartOf(s.w.config.bucketSize, b) {
      var c :| c < b && Stopped(s, c);
      NextStaysStopped(s, e, c);
    }
  }

  // In every continuation of the run the message stays out of reach and its delivery
  // count never changes: at least once delivery ends here unless a client that still
  // holds its receipt acks it.
  lemma {:induction false} ForgottenForever(s: State, events: seq<Event>, i: int, b: int)
    requires QueueTheorems.Reachable(s) && OutOfReach(s, i, b)
    ensures var t := Run(s, events);
      && StateInv(t) && OutOfReach(t, i, b)
      && t.w.store.rows[i].deliveryCount == s.w.store.rows[i].deliveryCount
    decreases |events|
  {
    if |events| == 0 {
      QueueTheorems.ReachableInv(s);
    } else {
      ForgottenForever(s, events[..|events| - 1], i, b);
      var u := Run(s, events[..|events| - 1]);
      var p := NextKeeps(u, events[|events| - 1]);
      NextStaysOutOfReach(u, events[|events| - 1], i, b);
    }
  }
}
