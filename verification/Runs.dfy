// One process running by itself from some state, and where it comes to.
module Solo {
  import opened Machine
  import opened Invariants
  import opened QueueTheorems

  lemma Extend(s: State, e: Event) returns (t: State)
    requires Reachable(s)
    ensures t == Next(s, e) && Reachable(t)
  {
    var config: Config, now: int, n: nat, events: seq<Event> :| s == Run(Init(config, now, n), events);
    t := Next(s, e);
    assert (events + [e])[..|events|] == events;
    assert t == Run(Init(config, now, n), events + [e]);
  }

  // Process p takes n steps and nobody else takes any.
  function Alone(s: State, p: nat, tag: string, n: nat): (t: State)
    ensures |t.procs| == |s.procs|
  {
    if n == 0 then s else Next(Alone(s, p, tag, n - 1), Step(p, Go(tag)))
  }

  lemma {:induction false} AloneReachable(s: State, p: nat, tag: string, n: nat)
    requires Reachable(s)
    ensures Reachable(Alone(s, p, tag, n))
  {
    if n > 0 {
      AloneReachable(s, p, tag, n - 1);
      var t := Extend(Alone(s, p, tag, n - 1), Step(p, Go(tag)));
    }
  }

  function At(s: State, p: nat, w: World, pc: Pc): State
    requires p < |s.procs|
  {
    State(w, s.procs[p := pc])
  }

  // Worlds and program points of process p, each one step after the one before.
  ghost predicate StepAt(p: nat, tag: string, path: seq<(World, Pc)>, k: int)
    requires 0 < k < |path|
  {
    var (e, next) := Act(path[k - 1].0, path[k - 1].1, tag);
    path[k] == (Apply(path[k - 1].0, p, e), next)
  }

  ghost predicate Path(s: State, p: nat, tag: string, path: seq<(World, Pc)>) {
    && p < |s.procs| && |path| > 0 && path[0] == (s.w, s.procs[p])
    && forall k :: 0 < k < |path| ==> StepAt(p, tag, path, k)
  }

  // Running alone from s, process p comes to this program point with this world.
  ghost predicate Comes(s: State, p: nat, tag: string, w: World, pc: Pc) {
    exists path :: Path(s, p, tag, path) && path[|path| - 1] == (w, pc)
  }

  lemma Starts(s: State, p: nat, tag: string)
    requires p < |s.procs|
    ensures Comes(s, p, tag, s.w, s.procs[p])
  {
    assert Path(s, p, tag, [(s.w, s.procs[p])]);
  }

  lemma Goes(s: State, p: nat, tag: string, w: World, pc: Pc, e: Effect, next: Pc)
    requires Comes(s, p, tag, w, pc) && Does(w, pc, e, next, tag)
    ensures Comes(s, p, tag, Apply(w, p, e), next)
  {
    var path :| Path(s, p, tag, path) && path[|path| - 1] == (w, pc);
    var longer := path + [(Apply(w, p, e), next)];
    forall k | 0 < k < |longer| ensures StepAt(p, tag, longer, k) {
      if k < |path| { assert StepAt(p, tag, path, k); }
    }
    assert Path(s, p, tag, longer);
  }

  lemma OneMoreStep(s: State, p: nat, tag: string, n: nat, w: World, pc: Pc, e: Effect, next: Pc)
    requires p < |s.procs| && Alone(s, p, tag, n) == At(s, p, w, pc) && Does(w, pc, e, next, tag)
    ensures Alone(s, p, tag, n + 1) == At(s, p, Apply(w, p, e), next)
  {
    assert s.procs[p := pc][p := next] == s.procs[p := next];
  }

  // A path is a run of p alone.
  lemma {:induction false} PathIsAlone(s: State, p: nat, tag: string, path: seq<(World, Pc)>, n: nat)
    requires Path(s, p, tag, path) && n < |path|
    ensures Alone(s, p, tag, n) == At(s, p, path[n].0, path[n].1)
  {
    if n == 0 {
      assert s.procs[p := s.procs[p]] == s.procs;
    } else {
      PathIsAlone(s, p, tag, path, n - 1);
      assert StepAt(p, tag, path, n);
      var e := Act(path[n - 1].0, path[n - 1].1, tag).0;
      OneMoreStep(s, p, tag, n - 1, path[n - 1].0, path[n - 1].1, e, path[n].1);
    }
  }

  lemma ComesAlone(s: State, p: nat, tag: string, w: World, pc: Pc) returns (n: nat)
    requires Comes(s, p, tag, w, pc)
    ensures p < |s.procs| && Alone(s, p, tag, n) == At(s, p, w, pc)
  {
    var path :| Path(s, p, tag, path) && path[|path| - 1] == (w, pc);
    n := |path| - 1;
    PathIsAlone(s, p, tag, path, n);
  }

  // A step that changes nothing but the program point.
  lemma GoesOn(s: State, p: nat, tag: string, w: World, pc: Pc, next: Pc)
    requires Comes(s, p, tag, w, pc) && Moves(w, pc, next, tag)
    ensures Comes(s, p, tag, w, next)
  {
    Goes(s, p, tag, w, pc, Nothing, next);
  }

  lemma ComesReachable(s: State, p: nat, tag: string, w: World, pc: Pc)
    requires Reachable(s) && Comes(s, p, tag, w, pc)
    ensures p < |s.procs| && Reachable(At(s, p, w, pc)) && Inv(w) && Local(w, p, pc)
  {
    var n := ComesAlone(s, p, tag, w, pc);
    AloneReachable(s, p, tag, n);
    ReachableInv(At(s, p, w, pc));
    assert At(s, p, w, pc).procs[p] == pc;
  }
}

// What getAndMark does by itself.
module Runs {
  import opened Buckets
  import opened Tables
  import opened RowLog
  import opened Machine
  import opened Invariants
  import opened ServiceSpec
  import opened QueueTheorems
  import opened Solo

  lemma InvStoreOk(w: World)
    requires Inv(w)
    ensures StoreOk(w.config, w.store)
  {
    forall i | i in w.store.rows ensures 0 <= i < w.store.counter && w.store.rows[i].deliveryCount >= 0 {
      VersionLaw(w.log[i]);
    }
  }

  // ---- getAndMark by itself ----

  predicate Spent(m: Message, now: int) { m.row.acked || !m.row.Visible(now) }

  lemma CheckSkips(s: State, p: nat, tag: string, w: World, d: int, b: int, call: Call, mark: nat,
                  seen: seq<Message>, k: nat)
    requires k < |seen| && Spent(seen[k], w.now) && Comes(s, p, tag, w, CheckComplete(d, b, call, mark, seen, k))
    ensures Comes(s, p, tag, w, CheckComplete(d, b, call, mark, seen, k + 1))
  {
    GoesOn(s, p, tag, w, CheckComplete(d, b, call, mark, seen, k), CheckComplete(d, b, call, mark, seen, k + 1));
  }

  lemma CheckHits(s: State, p: nat, tag: string, w: World, d: int, b: int, call: Call, mark: nat,
                 seen: seq<Message>, k: nat)
    requires k < |seen| && !Spent(seen[k], w.now) && Comes(s, p, tag, w, CheckComplete(d, b, call, mark, seen, k))
    ensures Comes(s, p, tag, w, FindVisible(d, b, call, mark, seen, 0))
  {
    GoesOn(s, p, tag, w, CheckComplete(d, b, call, mark, seen, k), FindVisible(d, b, call, mark, seen, 0));
  }

  lemma FindSkips(s: State, p: nat, tag: string, w: World, d: int, b: int, call: Call, mark: nat,
                  seen: seq<Message>, k: nat)
    requires k < |seen| && Spent(seen[k], w.now) && Comes(s, p, tag, w, FindVisible(d, b, call, mark, seen, k))
    ensures Comes(s, p, tag, w, FindVisible(d, b, call, mark, seen, k + 1))
  {
    GoesOn(s, p, tag, w, FindVisible(d, b, call, mark, seen, k), FindVisible(d, b, call, mark, seen, k + 1));
  }

  lemma FindHits(s: State, p: nat, tag: string, w: World, d: int, b: int, call: Call, mark: nat,
                 seen: seq<Message>, k: nat)
    requires k < |seen| && !Spent(seen[k], w.now) && Comes(s, p, tag, w, FindVisible(d, b, call, mark, seen, k))
    ensures Comes(s, p, tag, w, ConsumeClock(d, seen[k], FromBucket(b, call, mark)))
  {
    GoesOn(s, p, tag, w, FindVisible(d, b, call, mark, seen, k), ConsumeClock(d, seen[k], FromBucket(b, call, mark)));
  }

  lemma {:induction false} CheckRest(s: State, p: nat, tag: string, w: World, d: int, b: int, call: Call, mark: nat,
                                     seen: seq<Message>, k: nat)
    requires k <= |seen| && Comes(s, p, tag, w, CheckComplete(d, b, call, mark, seen, k))
    requires forall j :: k <= j < |seen| ==> Spent(seen[j], w.now)
    ensures Comes(s, p, tag, w, CheckComplete(d, b, call, mark, seen, |seen|))
    decreases |seen| - k
  {
    if k < |seen| {
      CheckSkips(s, p, tag, w, d, b, call, mark, seen, k);
      CheckRest(s, p, tag, w, d, b, call, mark, seen, k + 1);
    }
  }

  lemma {:induction false} CheckTo(s: State, p: nat, tag: string, w: World, d: int, b: int, call: Call, mark: nat,
                                   seen: seq<Message>, k: nat, n: nat)
    requires k <= n < |seen| && Comes(s, p, tag, w, CheckComplete(d, b, call, mark, seen, k))
    requires !Spent(seen[n], w.now) && forall j :: k <= j < n ==> Spent(seen[j], w.now)
    ensures Comes(s, p, tag, w, FindVisible(d, b, call, mark, seen, 0))
    decreases n - k
  {
    if k < n {
      CheckSkips(s, p, tag, w, d, b, call, mark, seen, k);
      CheckTo(s, p, tag, w, d, b, call, mark, seen, k + 1, n);
    } else {
      CheckHits(s, p, tag, w, d, b, call, mark, seen, k);
    }
  }

  lemma {:induction false} FindTo(s: State, p: nat, tag: string, w: World, d: int, b: int, call: Call, mark: nat,
                                  seen: seq<Message>, k: nat, n: nat)
    requires k <= n < |seen| && Comes(s, p, tag, w, FindVisible(d, b, call, mark, seen, k))
    requires !Spent(seen[n], w.now) && forall j :: k <= j < n ==> Spent(seen[j], w.now)
    ensures Comes(s, p, tag, w, ConsumeClock(d, seen[n], FromBucket(b, call, mark)))
    decreases n - k
  {
    if k < n {
      FindSkips(s, p, tag, w, d, b, call, mark, seen, k);
      FindTo(s, p, tag, w, d, b, call, mark, seen, k + 1, n);
    } else {
      FindHits(s, p, tag, w, d, b, call, mark, seen, k);
    }
  }

  function Closing(w: World, b: int): World { w.(store := Tombstone(w.store, b, w.now)) }

  lemma CompleteIsSpent(w: World, b: int)
    requires Inv(w) && b >= 0 && Complete(w.config, w.store, b, w.now)
    ensures forall m :: m in GetMessages(w.store, w.config.bucketSize, b) ==> Spent(m, w.now)
  {
    InvStoreOk(w);
    ScanIsBucket(w.config, w.store, b);
    forall m | m in GetMessages(w.store, w.config.bucketSize, b) ensures Spent(m, w.now) {
      assert !Deliverable(w.store, m.index, w.now);
    }
  }

  // A scan of a bucket that has nothing to deliver.
  lemma CompleteScanEnds(s: State, p: nat, tag: string, w: World, d: int, b: int, call: Call)
    requires Comes(s, p, tag, w, GetBucket(d, b, call)) && Inv(w) && b >= 0
    requires Complete(w.config, w.store, b, w.now)
    ensures var seen := GetMessages(w.store, w.config.bucketSize, b);
      Comes(s, p, tag, w, CheckComplete(d, b, call, w.bumps, seen, |seen|))
  {
    var seen := GetMessages(w.store, w.config.bucketSize, b);
    CompleteIsSpent(w, b);
    GoesOn(s, p, tag, w, GetBucket(d, b, call), CheckComplete(d, b, call, w.bumps, seen, 0));
    forall j | 0 <= j < |seen| ensures Spent(seen[j], w.now) { assert seen[j] in seen; }
    CheckRest(s, p, tag, w, d, b, call, w.bumps, seen, 0);
  }

  lemma ClosesBucket(s: State, p: nat, tag: string, w: World, d: int, b: int, call: Call)
    requires Comes(s, p, tag, w, TombstoneClock(d, b, call))
    ensures Comes(s, p, tag, Closing(w, b), CasReader(d, b, call))
  {
    GoesOn(s, p, tag, w, TombstoneClock(d, b, call), TombstoneInsert(d, b, call, w.now));
    Goes(s, p, tag, w, TombstoneInsert(d, b, call, w.now), DoTombstone(b, w.now), CasReader(d, b, call));
  }

  // A bucket with nothing to deliver is closed if it may be, and otherwise ends the call.
  lemma CompleteBucket(s: State, p: nat, tag: string, w: World, d: int, b: int, call: Call)
    requires Comes(s, p, tag, w, GetBucket(d, b, call)) && Inv(w) && b >= 0
    requires Complete(w.config, w.store, b, w.now)
    ensures Closable(w.config, w.store, b) ==> Comes(s, p, tag, Closing(w, b), CasReader(d, b, call))
    ensures !Closable(w.config, w.store, b) ==> Comes(s, p, tag, w, Idle)
  {
    var bs := w.config.bucketSize;
    var seen := GetMessages(w.store, bs, b);
    var last := CheckComplete(d, b, call, w.bumps, seen, |seen|);
    InvStoreOk(w);
    ScanIsBucket(w.config, w.store, b);
    CompleteScanEnds(s, p, tag, w, d, b, call);
    if |seen| == bs {
      GoesOn(s, p, tag, w, last, TombstoneClock(d, b, call));
      ClosesBucket(s, p, tag, w, d, b, call);
    } else {
      GoesOn(s, p, tag, w, last, CheckMonoton(d, b, call));
      if w.store.counter >= 0 && BucketOf(bs, w.store.counter) > b {
        GoesOn(s, p, tag, w, CheckMonoton(d, b, call), TombstoneClock(d, b, call));
        ClosesBucket(s, p, tag, w, d, b, call);
      } else {
        GoesOn(s, p, tag, w, CheckMonoton(d, b, call), Idle);
      }
    }
  }

  lemma FirstInScan(w: World, b: int, i: int) returns (n: nat)
    requires Inv(w) && b >= 0 && FirstDeliverable(w.config, w.store, b, w.now, i)
    ensures var seen := GetMessages(w.store, w.config.bucketSize, b);
      && n < |seen| && seen[n] == Message(i, w.store.rows[i])
      && !Spent(seen[n], w.now) && forall j :: 0 <= j < n ==> Spent(seen[j], w.now)
  {
    var seen := GetMessages(w.store, w.config.bucketSize, b);
    var m := Message(i, w.store.rows[i]);
    InvStoreOk(w);
    ScanIsBucket(w.config, w.store, b);
    assert m in seen;
    n :| n < |seen| && seen[n] == m;
    forall j | 0 <= j < n ensures Spent(seen[j], w.now) {
      assert seen[j] in seen && seen[j].index < i;
      assert !Deliverable(w.store, seen[j].index, w.now);
    }
  }

  // A bucket with something to deliver delivers its first deliverable message.
  lemma DeliveringBucket(s: State, p: nat, tag: string, w: World, d: int, b: int, call: Call, i: int)
    requires Comes(s, p, tag, w, GetBucket(d, b, call)) && Inv(w) && b >= 0
    requires FirstDeliverable(w.config, w.store, b, w.now, i)
    ensures Comes(s, p, tag, Apply(w, p, DoConsume(Message(i, w.store.rows[i]), w.now, d)), Idle)
  {
    var seen := GetMessages(w.store, w.config.bucketSize, b);
    var m := Message(i, w.store.rows[i]);
    var n := FirstInScan(w, b, i);
    GoesOn(s, p, tag, w, GetBucket(d, b, call), CheckComplete(d, b, call, w.bumps, seen, 0));
    CheckTo(s, p, tag, w, d, b, call, w.bumps, seen, 0, n);
    FindTo(s, p, tag, w, d, b, call, w.bumps, seen, 0, n);
    Consumes(s, p, tag, w, d, m, FromBucket(b, call, w.bumps));
  }

  lemma ConsumeApplies(w: World, d: int, m: Message, clock: int, caller: Caller, tag: string)
    requires Consumable(w.store, m)
    ensures Does(w, ConsumeCas(d, m, clock, caller), DoConsume(m, clock, d), Idle, tag)
  {
  }

  lemma Consumes(s: State, p: nat, tag: string, w: World, d: int, m: Message, caller: Caller)
    requires Comes(s, p, tag, w, ConsumeClock(d, m, caller)) && Consumable(w.store, m)
    ensures Comes(s, p, tag, Apply(w, p, DoConsume(m, w.now, d)), Idle)
  {
    GoesOn(s, p, tag, w, ConsumeClock(d, m, caller), ConsumeCas(d, m, w.now, caller));
    ConsumeApplies(w, d, m, w.now, caller, tag);
    Goes(s, p, tag, w, ConsumeCas(d, m, w.now, caller), DoConsume(m, w.now, d), Idle);
  }

  lemma SomeDeliverable(w: World, b: int) returns (i: int)
    requires Inv(w) && b >= 0 && !Complete(w.config, w.store, b, w.now)
    ensures FirstDeliverable(w.config, w.store, b, w.now, i)
  {
    var seen := GetMessages(w.store, w.config.bucketSize, b);
    InvStoreOk(w);
    ScanIsBucket(w.config, w.store, b);
    var k := 0;
    while k < |seen| && Spent(seen[k], w.now)
      invariant 0 <= k <= |seen|
      invariant forall j :: 0 <= j < k ==> Spent(seen[j], w.now)
    {
      k := k + 1;
    }
    if k == |seen| {
      CompleteScan(w.config, w.store, b, w.now, seen);
      assert false;
    }
    FirstDeliverableOfScan(w.config, w.store, b, w.now, seen, k);
    i := seen[k].index;
  }

  // ---- asking for the next message ----

  lemma BeginReachable(s: State, p: nat, request: Request) returns (t: State)
    requires Reachable(s) && p < |s.procs| && s.procs[p].Idle?
    ensures Reachable(t) && t == At(s, p, s.w, Start(request, s.w))
  {
    t := Extend(s, Step(p, Begin(request)));
  }

  lemma {:induction false} NoRowsNoMessages(rows: map<int, Row>, lo: int, hi: int)
    requires forall i :: lo <= i < hi ==> i !in rows
    ensures Collect(rows, lo, hi) == []
    decreases hi - lo
  {
    if lo < hi { NoRowsNoMessages(rows, lo + 1, hi); }
  }

  // With the invisibility pointer unset and bucket 0 empty, nextMessage comes straight to
  // the reader's bucket.
  lemma ComesToReader(s: State, p: nat, tag: string, w: World, d: int)
    requires Comes(s, p, tag, w, ReadInvis(d)) && w.store.invis == -1 && Inv(w)
    requires forall i :: 0 <= i < w.config.bucketSize ==> i !in w.store.rows
    ensures Comes(s, p, tag, w, GetBucket(d, w.store.reader, Call(w.bumps, [])))
  {
    NoRowsNoMessages(w.store.rows, StartOf(w.config.bucketSize, 0), StartOf(w.config.bucketSize, 1));
    GoesOn(s, p, tag, w, ReadInvis(d), GetAtInvis(d, -1));
    NothingAtMinusOne(w, d, tag);
    GoesOn(s, p, tag, w, GetAtInvis(d, -1), GetInvisBucket(d, -1));
    GoesOn(s, p, tag, w, GetInvisBucket(d, -1), ReadReader(d));
    GoesOn(s, p, tag, w, ReadReader(d), GetBucket(d, w.store.reader, Call(w.bumps, [])));
  }

  lemma NothingAtMinusOne(w: World, d: int, tag: string)
    requires Inv(w)
    ensures Moves(w, GetAtInvis(d, -1), GetInvisBucket(d, -1), tag)
  {
    assert -1 !in w.log;
  }
}
