// Retries on a lost pointer.  movePointer answers the original value when its
// compare-and-set loses, so a loser goes round again on the bucket the pointer has left.
// Left to itself it returns exactly when it was not overtaken; and a repairer that was
// overtaken never returns, whatever the others do.
module Retries {
  import opened Buckets
  import opened Tables
  import opened Machine
  import opened Invariants
  import opened Effects
  import opened Steps
  import opened ServiceSpec
  import opened QueueTheorems
  import opened Solo
  import opened Runs

  // ---- findFirstBucketToMonitor ----

  predicate Finding(pc: Pc) { pc.FindTombstone? || pc.FindFull? || pc.CasRepairFull? }

  // The points of one round on bucket b.
  predicate Around(w: World, pc: Pc, b: int) {
    b in w.store.tombs
    && (pc == FindTombstone(b) || pc == FindFull(b, w.store.tombs[b]) || pc == CasRepairFull(b))
  }

  lemma FullAckedReads(w: World, b: int)
    requires Inv(w) && b >= 0 && FullAcked(w, b)
    ensures var seen := GetMessages(w.store, w.config.bucketSize, b);
      |seen| == w.config.bucketSize && forall m :: m in seen ==> m.row.acked
  {
    var bs := w.config.bucketSize;
    GetMessagesIsBucket(w.store, bs, b);
    forall i | StartOf(bs, b) <= i < StartOf(bs, b + 1) ensures i in w.store.rows { assert Acked(w, i); }
    forall m | m in GetMessages(w.store, bs, b) ensures m.row.acked {
      InBucket(bs, m.index, b);
      assert Acked(w, m.index);
    }
  }

  function NextAround(w: World, pc: Pc, b: int): Pc
    requires Around(w, pc, b)
  {
    if pc.FindTombstone? then FindFull(b, w.store.tombs[b])
    else if pc.FindFull? then CasRepairFull(b)
    else FindTombstone(b)
  }

  // A round on a bucket the pointer has left changes nothing and comes back.
  lemma RoundStep(w: World, p: nat, pc: Pc, b: int, tag: string) returns (e: Effect)
    requires Inv(w) && b >= 0 && Around(w, pc, b) && FullAcked(w, b) && w.store.repair != b
    ensures Does(w, pc, e, NextAround(w, pc, b), tag) && Apply(w, p, e) == w
  {
    e := if pc.CasRepairFull? then DoMoveRepair(b) else Nothing;
    if pc.FindFull? { FullAckedReads(w, b); }
  }

  lemma {:induction false} RoundAndRound(s: State, p: nat, tag: string, b: int, n: nat) returns (pc: Pc)
    requires Reachable(s) && p < |s.procs| && b >= 0
    requires Around(s.w, s.procs[p], b) && FullAcked(s.w, b) && s.w.store.repair != b
    ensures Alone(s, p, tag, n) == At(s, p, s.w, pc) && Around(s.w, pc, b)
  {
    if n == 0 {
      pc := s.procs[p];
    } else {
      var before := RoundAndRound(s, p, tag, b, n - 1);
      ReachableInv(s);
      var e := RoundStep(s.w, p, before, b, tag);
      pc := NextAround(s.w, before, b);
      OneMoreStep(s, p, tag, n - 1, s.w, before, e, pc);
    }
  }

  function Passed(w: World, b: int): World { w.(store := AdvanceRepair(w.store, b)) }

  // One bucket of the search: open, to be watched, or passed.
  lemma SearchOne(s: State, p: nat, tag: string, w: World, b: int) returns (next: Pc)
    requires Comes(s, p, tag, w, FindTombstone(b)) && w.store.repair == b
    ensures (!Finding(next) && Comes(s, p, tag, w, next))
         || (next == FindTombstone(b + 1) && b in w.store.tombs && Comes(s, p, tag, Passed(w, b), next))
  {
    if b !in w.store.tombs {
      GoesOn(s, p, tag, w, FindTombstone(b), Idle);
      return Idle;
    }
    GoesOn(s, p, tag, w, FindTombstone(b), FindFull(b, w.store.tombs[b]));
    next := JudgesBucket(s, p, tag, w, b, w.store.tombs[b]);
    if next.CasRepairFull? {
      PassesBucket(s, p, tag, w, b);
      next := FindTombstone(b + 1);
    }
  }

  lemma JudgesBucket(s: State, p: nat, tag: string, w: World, b: int, at: int) returns (next: Pc)
    requires Comes(s, p, tag, w, FindFull(b, at))
    ensures next == CasRepairFull(b) || next == WaitClock(b, at)
    ensures next == CasRepairFull(b) <==>
      var seen := GetMessages(w.store, w.config.bucketSize, b);
      |seen| == w.config.bucketSize && forall m :: m in seen ==> m.row.acked
    ensures Comes(s, p, tag, w, next)
  {
    var seen := GetMessages(w.store, w.config.bucketSize, b);
    next := if |seen| == w.config.bucketSize && (forall m :: m in seen ==> m.row.acked)
            then CasRepairFull(b) else WaitClock(b, at);
    GoesOn(s, p, tag, w, FindFull(b, at), next);
  }

  lemma PassesBucket(s: State, p: nat, tag: string, w: World, b: int)
    requires Comes(s, p, tag, w, CasRepairFull(b)) && w.store.repair == b
    ensures Comes(s, p, tag, Passed(w, b), FindTombstone(b + 1))
  {
    Goes(s, p, tag, w, CasRepairFull(b), DoMoveRepair(b), FindTombstone(b + 1));
  }

  // From a bucket the pointer is still at, the search goes on to the first bucket that is
  // open or needs watching.
  lemma {:induction false} SearchEnds(s: State, p: nat, tag: string, w: World, b: int) returns (next: Pc, v: World)
    requires Reachable(s) && Comes(s, p, tag, w, FindTombstone(b)) && w.store.repair == b
    ensures !Finding(next) && Comes(s, p, tag, v, next)
    decreases w.store.reader + 1 - b
  {
    ComesReachable(s, p, tag, w, FindTombstone(b));
    next := SearchOne(s, p, tag, w, b);
    v := w;
    if Finding(next) { next, v := SearchEnds(s, p, tag, Passed(w, b), b + 1); }
  }

  // A repairer at its compare-and-set, left to itself, leaves the search if and only if
  // the stored pointer is still at its bucket.  The bucket is full and acked then, and
  // stays so.
  lemma RepairerReturnsIff(s: State, p: nat, tag: string, b: int)
    requires Reachable(s) && p < |s.procs| && s.procs[p] == CasRepairFull(b)
    ensures FullAcked(s.w, b)
    ensures (exists n: nat :: !Finding(Alone(s, p, tag, n).procs[p])) <==> s.w.store.repair == b
  {
    ReachableInv(s);
    assert Local(s.w, p, s.procs[p]);
    if s.w.store.repair == b {
      Starts(s, p, tag);
      PassesBucket(s, p, tag, s.w, b);
      var next, v := SearchEnds(s, p, tag, Passed(s.w, b), b + 1);
      var n := ComesAlone(s, p, tag, v, next);
      assert !Finding(Alone(s, p, tag, n).procs[p]);
    } else {
      forall n: nat ensures Finding(Alone(s, p, tag, n).procs[p]) {
        var pc := RoundAndRound(s, p, tag, b, n);
      }
    }
  }

  // ---- in every continuation ----

  ghost predicate Overtaken(s: State, p: nat, b: int) {
    && p < |s.procs| && b >= 0 && Around(s.w, s.procs[p], b)
    && FullAcked(s.w, b) && s.w.store.repair > b
  }

  lemma OvertakenStays(s: State, e: Event, p: nat, b: int)
    requires StateInv(s) && Overtaken(s, p, b) && e != Step(p, Crash)
    ensures Overtaken(Next(s, e), p, b)
  {
    var q := NextKeeps(s, e);
    var t := Next(s, e);
    RowsKept(s.w, t.w);
    if e.Step? && e.p == p && e.choice.Go? { var f := RoundStep(s.w, p, s.procs[p], b, e.choice.tag); }
  }

  // An overtaken repairer never leaves the search again, in any continuation of the run in
  // which it does not crash.
  lemma {:induction false} OvertakenForever(s: State, events: seq<Event>, p: nat, b: int)
    requires Reachable(s) && Overtaken(s, p, b)
    requires forall k :: 0 <= k < |events| ==> events[k] != Step(p, Crash)
    ensures Overtaken(Run(s, events), p, b) && StateInv(Run(s, events))
    decreases |events|
  {
    if |events| == 0 {
      ReachableInv(s);
    } else {
      var before := events[..|events| - 1];
      OvertakenForever(s, before, p, b);
      OvertakenStays(Run(s, before), events[|events| - 1], p, b);
      var q := NextKeeps(Run(s, before), events[|events| - 1]);
    }
  }

  // ---- getAndMark ----

  // The points of one round on bucket b, with the bucket as it is now.
  predicate Circling(w: World, pc: Pc, b: int) {
    match pc
    case GetBucket(_, bucket, _) => bucket == b
    case CheckComplete(_, bucket, _, _, seen, _) => bucket == b && seen == GetMessages(w.store, w.config.bucketSize, b)
    case CheckMonoton(_, bucket, _) => bucket == b
    case TombstoneClock(_, bucket, _) => bucket == b
    case TombstoneInsert(_, bucket, _, _) => bucket == b
    case CasReader(_, bucket, _) => bucket == b
    case _ => false
  }

  ghost predicate LeftBehind(w: World, b: int) {
    0 <= b < w.store.reader && Complete(w.config, w.store, b, w.now)
  }

  // A step that changes nothing and stays on the bucket.
  ghost predicate Circles(w: World, p: nat, pc: Pc, b: int, tag: string, e: Effect, next: Pc) {
    Does(w, pc, e, next, tag) && Apply(w, p, e) == w && Circling(w, next, b)
  }

  lemma ReadCircles(w: World, p: nat, pc: Pc, b: int, tag: string) returns (next: Pc)
    requires Inv(w) && LeftBehind(w, b) && pc.GetBucket? && pc.bucket == b
    ensures Circles(w, p, pc, b, tag, Nothing, next)
  {
    next := CheckComplete(pc.duration, b, pc.call, w.bumps, GetMessages(w.store, w.config.bucketSize, b), 0);
  }

  lemma SkipCircles(w: World, p: nat, d: int, b: int, call: Call, mark: nat, k: nat, tag: string)
    requires Inv(w) && LeftBehind(w, b)
    requires var seen := GetMessages(w.store, w.config.bucketSize, b); k < |seen|
    ensures var seen := GetMessages(w.store, w.config.bucketSize, b);
      Circles(w, p, CheckComplete(d, b, call, mark, seen, k), b, tag, Nothing,
              CheckComplete(d, b, call, mark, seen, k + 1))
  {
    var seen := GetMessages(w.store, w.config.bucketSize, b);
    CompleteIsSpent(w, b);
    assert seen[k] in seen;
  }

  lemma CheckCircles(w: World, p: nat, pc: Pc, b: int, tag: string) returns (next: Pc)
    requires Inv(w) && LeftBehind(w, b) && pc.CheckComplete? && Circling(w, pc, b)
    ensures Circles(w, p, pc, b, tag, Nothing, next)
  {
    if pc.k < |pc.seen| {
      SkipCircles(w, p, pc.duration, b, pc.call, pc.mark, pc.k, tag);
      next := CheckComplete(pc.duration, b, pc.call, pc.mark, pc.seen, pc.k + 1);
    } else {
      next := if |pc.seen| == w.config.bucketSize then TombstoneClock(pc.duration, b, pc.call)
              else CheckMonoton(pc.duration, b, pc.call);
    }
  }

  lemma MonotonCircles(w: World, p: nat, d: int, b: int, call: Call, tag: string)
    requires Inv(w) && LeftBehind(w, b)
    ensures Circles(w, p, CheckMonoton(d, b, call), b, tag, Nothing, TombstoneClock(d, b, call))
  {
    assert b in w.store.tombs;
    BeforeBucket(w.config.bucketSize, w.store.counter, b + 1);
  }

  lemma TombstoneCircles(w: World, p: nat, d: int, b: int, call: Call, clock: int, tag: string)
    requires Inv(w) && LeftBehind(w, b)
    ensures Circles(w, p, TombstoneClock(d, b, call), b, tag, Nothing, TombstoneInsert(d, b, call, w.now))
    ensures Circles(w, p, TombstoneInsert(d, b, call, clock), b, tag, DoTombstone(b, clock), CasReader(d, b, call))
  {
  }

  lemma CasCircles(w: World, p: nat, d: int, b: int, call: Call, tag: string)
    requires Inv(w) && LeftBehind(w, b)
    ensures Circles(w, p, CasReader(d, b, call), b, tag, DoMoveReader(b), GetBucket(d, b, call))
  {
  }

  lemma CloseCircles(w: World, p: nat, pc: Pc, b: int, tag: string) returns (e: Effect, next: Pc)
    requires Inv(w) && LeftBehind(w, b) && Circling(w, pc, b) && !pc.CheckComplete? && !pc.GetBucket?
    ensures Circles(w, p, pc, b, tag, e, next)
  {
    e := Nothing;
    if pc.CheckMonoton? {
      MonotonCircles(w, p, pc.duration, b, pc.call, tag);
      next := TombstoneClock(pc.duration, b, pc.call);
    } else if pc.TombstoneClock? {
      TombstoneCircles(w, p, pc.duration, b, pc.call, 0, tag);
      next := TombstoneInsert(pc.duration, b, pc.call, w.now);
    } else if pc.TombstoneInsert? {
      TombstoneCircles(w, p, pc.duration, b, pc.call, pc.clock, tag);
      e, next := DoTombstone(b, pc.clock), CasReader(pc.duration, b, pc.call);
    } else {
      CasCircles(w, p, pc.duration, b, pc.call, tag);
      e, next := DoMoveReader(b), GetBucket(pc.duration, b, pc.call);
    }
  }

  lemma {:induction false} CirclesAlone(s: State, p: nat, tag: string, b: int, n: nat) returns (pc: Pc)
    requires Reachable(s) && p < |s.procs| && Circling(s.w, s.procs[p], b) && LeftBehind(s.w, b)
    ensures Alone(s, p, tag, n) == At(s, p, s.w, pc) && Circling(s.w, pc, b)
  {
    if n == 0 {
      pc := s.procs[p];
    } else {
      var before := CirclesAlone(s, p, tag, b, n - 1);
      var e := Nothing;
      ReachableInv(s);
      if before.CheckComplete? {
        pc := CheckCircles(s.w, p, before, b, tag);
      } else if before.GetBucket? {
        pc := ReadCircles(s.w, p, before, b, tag);
      } else {
        e, pc := CloseCircles(s.w, p, before, b, tag);
      }
      OneMoreStep(s, p, tag, n - 1, s.w, before, e, pc);
    }
  }

  function Moved(w: World, b: int): World { w.(store := AdvanceReader(w.store, b)) }

  lemma MovesReader(s: State, p: nat, tag: string, w: World, d: int, b: int, call: Call)
    requires Comes(s, p, tag, w, CasReader(d, b, call))
    ensures Comes(s, p, tag, Moved(w, b), GetBucket(d, if w.store.reader == b then b + 1 else b, call))
  {
    Goes(s, p, tag, w, CasReader(d, b, call), DoMoveReader(b),
      GetBucket(d, if w.store.reader == b then b + 1 else b, call));
  }

  // One bucket of the call: it returns, or the bucket is closed and the next one is up.
  lemma ReadOne(s: State, p: nat, tag: string, w: World, d: int, b: int, call: Call) returns (done: bool, v: World)
    requires Comes(s, p, tag, w, GetBucket(d, b, call)) && Inv(w) && b >= 0
    requires w.store.reader == b || !Complete(w.config, w.store, b, w.now)
    ensures done ==> Comes(s, p, tag, v, Idle)
    ensures !done ==> v == Moved(Closing(w, b), b) && w.store.reader == b && Closable(w.config, w.store, b)
                      && Comes(s, p, tag, v, GetBucket(d, b + 1, call))
  {
    done, v := true, w;
    if !Complete(w.config, w.store, b, w.now) {
      var i := SomeDeliverable(w, b);
      DeliveringBucket(s, p, tag, w, d, b, call, i);
      v := Apply(w, p, DoConsume(Message(i, w.store.rows[i]), w.now, d));
    } else {
      CompleteBucket(s, p, tag, w, d, b, call);
      if Closable(w.config, w.store, b) {
        MovesReader(s, p, tag, Closing(w, b), d, b, call);
        done, v := false, Moved(Closing(w, b), b);
      }
    }
  }

  lemma ComesToBucket(s: State, p: nat, tag: string, w: World, d: int, b: int, call: Call)
    requires Reachable(s) && Comes(s, p, tag, w, GetBucket(d, b, call))
    ensures Inv(w) && b >= 0 && StoreOk(w.config, w.store)
  {
    ComesReachable(s, p, tag, w, GetBucket(d, b, call));
    InvStoreOk(w);
  }

  // From the stored bucket, or from one with a message to deliver, the call returns.
  lemma {:induction false} CallReturns(s: State, p: nat, tag: string, w: World, d: int, b: int, call: Call)
    returns (v: World)
    requires Reachable(s) && Comes(s, p, tag, w, GetBucket(d, b, call))
    requires w.store.reader == b || !Complete(w.config, w.store, b, w.now)
    ensures Comes(s, p, tag, v, Idle)
    decreases Remaining(w.config, w.store, b)
  {
    ComesToBucket(s, p, tag, w, d, b, call);
    var done, mid := ReadOne(s, p, tag, w, d, b, call);
    v := mid;
    if !done {
      ClosableIsBehind(w.config, w.store, b);
      v := CallReturns(s, p, tag, mid, d, b + 1, call);
    }
  }

  lemma AtReaderCas(s: State, p: nat, d: int, b: int, call: Call)
    requires Reachable(s) && p < |s.procs| && s.procs[p] == CasReader(d, b, call)
    ensures Inv(s.w) && 0 <= b <= s.w.store.reader && b in s.w.store.tombs
    ensures StartOf(s.w.config.bucketSize, b + 1) <= s.w.store.counter
  {
    ReachableInv(s);
    assert Local(s.w, p, s.procs[p]);
  }

  lemma ReaderReturns(s: State, p: nat, tag: string, d: int, b: int, call: Call) returns (n: nat)
    requires Reachable(s) && p < |s.procs| && s.procs[p] == CasReader(d, b, call)
    requires s.w.store.reader == b || !Complete(s.w.config, s.w.store, b, s.w.now)
    ensures Alone(s, p, tag, n).procs[p].Idle?
  {
    Starts(s, p, tag);
    MovesReader(s, p, tag, s.w, d, b, call);
    SameRowsSameScan(s.w.config, s.w.store, Moved(s.w, b).store, b, s.w.now);
    var v := CallReturns(s, p, tag, Moved(s.w, b), d, if s.w.store.reader == b then b + 1 else b, call);
    n := ComesAlone(s, p, tag, v, Idle);
  }

  // A reader at its compare-and-set, left to itself, returns if and only if the stored
  // pointer is still at its bucket or the bucket has a message to deliver by now.  (The
  // bucket of a reader that was overtaken is always closable.)
  lemma ReaderReturnsIff(s: State, p: nat, tag: string, d: int, b: int, call: Call)
    requires Reachable(s) && p < |s.procs| && s.procs[p] == CasReader(d, b, call)
    ensures s.w.store.reader != b ==> Closable(s.w.config, s.w.store, b)
    ensures (exists n: nat :: Alone(s, p, tag, n).procs[p].Idle?)
       <==> s.w.store.reader == b || !Complete(s.w.config, s.w.store, b, s.w.now)
  {
    AtReaderCas(s, p, d, b, call);
    BeforeBucket(s.w.config.bucketSize, s.w.store.counter, b + 1);
    if s.w.store.reader == b || !Complete(s.w.config, s.w.store, b, s.w.now) {
      var n := ReaderReturns(s, p, tag, d, b, call);
    } else {
      forall n: nat ensures !Alone(s, p, tag, n).procs[p].Idle? {
        var pc := CirclesAlone(s, p, tag, b, n);
      }
    }
  }
}
