// The repair guarantee is tight.  For every configuration, a write that lands, or becomes
// visible, later than one second before tombstone time plus repair timeout can be
// stranded: there is a run without interrupted sleeps in which it is.
module LateWrite {
  import opened Buckets
  import opened Tables
  import opened Machine
  import opened ServiceSpec
  import opened QueueTheorems
  import opened Solo
  import opened Runs
  import opened Scenes
  import opened Retries
  import opened StuckRetries

  // ---- a repair pass that finds nothing due ----

  ghost predicate NothingDue(w: World, seen: seq<Message>) {
    forall k :: 0 <= k < |seen| ==> !Due(seen[k].row, w.now)
  }

  lemma {:induction false} ScansOn(s: State, p: nat, w: World, watch: Watch, k: nat)
    requires k <= |watch.seen| && Comes(s, p, TAG, w, ScanWatched(watch, k)) && NothingDue(w, watch.seen)
    ensures Comes(s, p, TAG, w, CasRepairWatched(watch.bucket))
    decreases |watch.seen| - k
  {
    if k < |watch.seen| {
      GoesOn(s, p, TAG, w, ScanWatched(watch, k), ScanWatched(watch, k + 1));
      ScansOn(s, p, w, watch, k + 1);
    } else {
      GoesOn(s, p, TAG, w, ScanWatched(watch, k), CasRepairWatched(watch.bucket));
    }
  }

  lemma Watches(s: State, p: nat, w: World, b: int, at: int)
    requires Comes(s, p, TAG, w, WaitClock(b, at)) && WholeSeconds(at + w.config.repairTimeout - w.now) <= 0
    requires NothingDue(w, GetMessages(w.store, w.config.bucketSize, b))
    ensures Comes(s, p, TAG, w, CasRepairWatched(b))
  {
    GoesOn(s, p, TAG, w, WaitClock(b, at), ReadWatched(b, at));
    ReadsWatched(s, p, w, b, at);
    ScansOn(s, p, w, Watch(b, at, GetMessages(w.store, w.config.bucketSize, b)), 0);
  }

  lemma ReadsWatched(s: State, p: nat, w: World, b: int, at: int)
    requires Comes(s, p, TAG, w, ReadWatched(b, at))
    ensures Comes(s, p, TAG, w, ScanWatched(Watch(b, at, GetMessages(w.store, w.config.bucketSize, b)), 0))
  {
    var watch := Watch(b, at, GetMessages(w.store, w.config.bucketSize, b));
    GoesOn(s, p, TAG, w, ReadWatched(b, at), ScanWatched(watch, 0));
  }

  lemma FoundToWatch(s: State, p: nat, w: World, b: int, at: int)
    requires Comes(s, p, TAG, w, FindFull(b, at))
    requires !(forall m :: m in GetMessages(w.store, w.config.bucketSize, b) ==> m.row.acked)
          || |GetMessages(w.store, w.config.bucketSize, b)| != w.config.bucketSize
    ensures Comes(s, p, TAG, w, WaitClock(b, at))
  {
    GoesOn(s, p, TAG, w, FindFull(b, at), WaitClock(b, at));
  }

  lemma LeavesWatched(s: State, p: nat, w: World, b: int)
    requires Comes(s, p, TAG, w, CasRepairWatched(b))
    ensures Comes(s, p, TAG, Passed(w, b), Idle)
  {
    Goes(s, p, TAG, w, CasRepairWatched(b), DoMoveRepair(b), Idle);
  }

  // A bucket that is not full and acked, whose timeout rounds to nothing, is passed at once.
  lemma PassesWatched(s: State, p: nat, b: int) returns (t: State)
    requires Reachable(s) && p < |s.procs| && s.procs[p].Idle? && s.w.store.repair == b && b in s.w.store.tombs
    requires WholeSeconds(s.w.store.tombs[b] + s.w.config.repairTimeout - s.w.now) <= 0
    requires var seen := GetMessages(s.w.store, s.w.config.bucketSize, b);
      NothingDue(s.w, seen) && (|seen| != s.w.config.bucketSize || !(forall m :: m in seen ==> m.row.acked))
    ensures Reachable(t) && t == s.(w := Passed(s.w, b))
  {
    var at := s.w.store.tombs[b];
    var u := Asks(s, p, RepairPass);
    TombstoneIsFound(u, p, s.w, b);
    FoundToWatch(u, p, s.w, b, at);
    Watches(u, p, s.w, b, at);
    LeavesWatched(u, p, s.w, b);
    t := Arrives(s, u, p, Passed(s.w, b), Idle);
    assert t.procs == s.procs;
  }

  // ---- the scenes ----

  // Bucket 0 handed out and closed, while process 0 still holds index 0.
  lemma ClosedTooEarly(config: Config, now: int, invisibility: int) returns (s: State)
    ensures Reachable(s) && |s.procs| == 3 && s.procs[2].Idle?
    ensures s.procs[0] == PutClock(Produce("late", invisibility), 0)
    ensures s.w.config == config && s.w.now == now && !s.w.interrupted && s.w.log == map[]
    ensures s.w.store.rows == map[] && s.w.store.tombs == map[0 := now] && s.w.store.repair == 0
  {
    s := HandedOut(config, now, invisibility);
    HandedOutIsClosable(s.w);
    s := Reads(s, 1, 0);
    s := Closes(s, 1, 0, 0, Call(0, []));
  }

  lemma HandedOut(config: Config, now: int, invisibility: int) returns (s: State)
    ensures Reachable(s) && s.procs == [PutClock(Produce("late", invisibility), 0), Idle, Idle]
    ensures s.w.config == config && s.w.now == now && !s.w.interrupted && s.w.log == map[] && s.w.bumps == 0
    ensures s.w.store == Store(config.bucketSize, 0, 0, -1, map[], map[])
  {
    s := Begins(config, now, 3);
    s := Allocates(s, 0, "late", invisibility);
    s := AbandonsMany(s, 1, config.bucketSize - 1);
  }

  // The wait that rounds to nothing.
  function Pause(config: Config): nat { if config.repairTimeout >= 999 then config.repairTimeout - 999 else 0 }

  ghost predicate Stranded(s: State, i: int) {
    && Reachable(s) && !s.w.interrupted
    && i in s.w.store.rows && !s.w.store.rows[i].acked && s.w.store.rows[i].deliveryCount == 0
    && i >= 0 && BucketOf(s.w.config.bucketSize, i) < s.w.store.repair
    && BucketOf(s.w.config.bucketSize, i) in s.w.store.tombs && i in s.w.log && |s.w.log[i]| > 0
  }

  // For every configuration and every delay past the deadline: a write that lands that
  // long after the tombstone, visible at once, is stranded in some run.
  lemma LateWritesStrand(config: Config, now: int, delay: nat) returns (s: State)
    requires delay > config.repairTimeout - 1000
    ensures Stranded(s, 0) && s.w.config == config
    ensures s.w.log[0][0].at == s.w.store.tombs[0] + delay
    ensures s.w.log[0][0].row.nextVisible == s.w.store.tombs[0] + delay
  {
    s := ClosedTooEarly(config, now, 0);
    s := Waits(s, Pause(config));
    NoRowsNoMessages(s.w.store.rows, StartOf(config.bucketSize, 0), StartOf(config.bucketSize, 1));
    s := PassesWatched(s, 2, 0);
    s := Waits(s, delay - Pause(config));
    s := Inserts(s, 0, "late", 0, 0);
  }

  // And so is a write that lands at the time of the tombstone but becomes visible that
  // late.
  lemma LateVisibilityStrands(config: Config, now: int, delay: nat) returns (s: State)
    requires delay > config.repairTimeout - 1000
    ensures Stranded(s, 0) && s.w.config == config
    ensures s.w.log[0][0].at == s.w.store.tombs[0]
    ensures s.w.log[0][0].row.nextVisible == s.w.store.tombs[0] + delay
  {
    s := ClosedTooEarly(config, now, delay);
    s := Inserts(s, 0, "late", delay, 0);
    s := Waits(s, Pause(config));
    OnlyTheLateRow(s.w.store.rows, config.bucketSize);
    s := PassesWatched(s, 2, 0);
  }

  // Nor can the hypothesis that no sleep is cut short be dropped: for every configuration
  // whose wait does not round to nothing, a write within the bound is stranded in a run
  // with one interrupted sleep.
  lemma InterruptedSleepStrands(config: Config, now: int, delay: nat) returns (s: State)
    requires config.repairTimeout >= 1000 && delay <= config.repairTimeout - 1000
    ensures Reachable(s) && s.w.config == config && s.w.store.repair == 1 && s.w.interrupted
    ensures 0 in s.w.store.rows && s.w.store.rows[0] == NewRow("late", TAG, now + delay) && 0 in s.w.log
    ensures |s.w.log[0]| > 0 && s.w.log[0][0].at == now + delay && s.w.store.tombs == map[0 := now]
  {
    s := FallsAsleep(config, now);
    s := Interrupted(s, 2, 0, now, now + WholeSeconds(config.repairTimeout) * 1000);
    NoRowsNoMessages(s.w.store.rows, StartOf(config.bucketSize, 0), StartOf(config.bucketSize, 1));
    s := RepairsNothing(s, 2, 0, now);
    s := Waits(s, delay);
    s := Inserts(s, 0, "late", 0, 0);
  }

  lemma FallsAsleep(config: Config, now: int) returns (s: State)
    requires config.repairTimeout >= 1000
    ensures Reachable(s) && |s.procs| == 3 && s.procs[0] == PutClock(Produce("late", 0), 0)
    ensures s.procs[2] == Sleeping(0, now, now + WholeSeconds(config.repairTimeout) * 1000)
    ensures s.w.config == config && s.w.now == now && s.w.log == map[]
    ensures s.w.store.rows == map[] && s.w.store.tombs == map[0 := now] && s.w.store.repair == 0
  {
    s := ClosedTooEarly(config, now, 0);
    NoRowsNoMessages(s.w.store.rows, StartOf(config.bucketSize, 0), StartOf(config.bucketSize, 1));
    s := Sleeps(s, 2, 0);
  }

  // A pass comes to a bucket without rows whose timeout has a second or more to go.
  lemma Sleeps(s: State, p: nat, b: int) returns (t: State)
    requires Reachable(s) && p < |s.procs| && s.procs[p].Idle? && s.w.store.repair == b && b in s.w.store.tombs
    requires GetMessages(s.w.store, s.w.config.bucketSize, b) == []
    requires WholeSeconds(s.w.store.tombs[b] + s.w.config.repairTimeout - s.w.now) > 0
    ensures var at := s.w.store.tombs[b];
      Reachable(t)
      && t == At(s, p, s.w, Sleeping(b, at, s.w.now + WholeSeconds(at + s.w.config.repairTimeout - s.w.now) * 1000))
  {
    var at := s.w.store.tombs[b];
    var u := Asks(s, p, RepairPass);
    TombstoneIsFound(u, p, s.w, b);
    FoundToWatch(u, p, s.w, b, at);
    var next := SleepsFirst(u, p, s.w, b, at);
    t := Arrives(s, u, p, s.w, next);
  }

  lemma SleepsFirst(s: State, p: nat, w: World, b: int, at: int) returns (next: Pc)
    requires Comes(s, p, TAG, w, WaitClock(b, at)) && WholeSeconds(at + w.config.repairTimeout - w.now) > 0
    ensures next == Sleeping(b, at, w.now + WholeSeconds(at + w.config.repairTimeout - w.now) * 1000)
    ensures Comes(s, p, TAG, w, next)
  {
    next := Sleeping(b, at, w.now + WholeSeconds(at + w.config.repairTimeout - w.now) * 1000);
    GoesOn(s, p, TAG, w, WaitClock(b, at), next);
  }

  // An interrupted sleeper goes on at once.
  lemma Interrupted(s: State, p: nat, b: int, at: int, until: int) returns (t: State)
    requires Reachable(s) && p < |s.procs| && s.procs[p] == Sleeping(b, at, until)
    ensures Reachable(t) && t == At(s, p, s.w.(interrupted := true), ReadWatched(b, at))
  {
    t := Extend(s, Step(p, Interrupt));
  }

  lemma RepairsNothing(s: State, p: nat, b: int, at: int) returns (t: State)
    requires Reachable(s) && p < |s.procs| && s.procs[p] == ReadWatched(b, at)
    requires GetMessages(s.w.store, s.w.config.bucketSize, b) == []
    ensures Reachable(t) && t == At(s, p, Passed(s.w, b), Idle)
  {
    Starts(s, p, TAG);
    ReadsWatched(s, p, s.w, b, at);
    ScansOn(s, p, s.w, Watch(b, at, []), 0);
    LeavesWatched(s, p, s.w, b);
    t := Arrives(s, s, p, Passed(s.w, b), Idle);
  }

  lemma OnlyTheLateRow(rows: map<int, Row>, bucketSize: int)
    requires bucketSize >= 1 && rows.Keys == {0}
    ensures Collect(rows, StartOf(bucketSize, 0), StartOf(bucketSize, 1)) == [Message(0, rows[0])]
  {
    NoRowsNoMessages(rows, 1, StartOf(bucketSize, 1));
  }
}
