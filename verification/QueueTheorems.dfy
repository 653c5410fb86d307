// What holds in every run of the queue: any number of producers, readers, ackers and
// repairers, interleaved statement by statement, with crashes at any point.
module QueueTheorems {
  import opened Wrappers
  import opened Buckets
  import opened Tables
  import opened RowLog
  import opened Machine
  import opened Invariants
  import opened Effects
  import opened Steps

  // The states a queue can reach.
  ghost predicate Reachable(s: State) {
    exists config: Config, now: int, n: nat, events: seq<Event> :: s == Run(Init(config, now, n), events)
  }

  lemma ReachableInv(s: State)
    requires Reachable(s)
    ensures StateInv(s)
  {
    var config: Config, now: int, n: nat, events: seq<Event> :| s == Run(Init(config, now, n), events);
    RunInv(config, now, n, events);
  }

  // The index nextMonotonic has handed to a process that has not inserted it yet.
  function InFlight(pc: Pc): Option<int> {
    if pc.PutClock? || pc.PutInsert? then Some(pc.index) else None
  }

  // Unique placement: exactly the indices below the counter have been handed out, no two
  // processes hold the same one, and none that is held is in the table.  So no insert,
  // of a producer or of a repairer, ever finds its index taken.
  lemma UniquePlacement(s: State, p: nat, q: nat)
    requires Reachable(s) && p < |s.procs| && q < |s.procs|
    ensures forall n :: n in s.w.owner <==> 0 <= n < s.w.store.counter
    ensures forall i :: i in s.w.store.rows ==> 0 <= i < s.w.store.counter
    ensures InFlight(s.procs[p]).Some? ==>
      0 <= InFlight(s.procs[p]).value < s.w.store.counter && InFlight(s.procs[p]).value !in s.w.store.rows
    ensures p != q && InFlight(s.procs[p]).Some? ==> InFlight(s.procs[p]) != InFlight(s.procs[q])
  {
    ReachableInv(s);
    assert Local(s.w, p, s.procs[p]) && Local(s.w, q, s.procs[q]);
  }

  // A bucket read returns exactly the bucket's rows in index order, and bucketSize of
  // them exactly when every index of the bucket is written.
  lemma BucketReadIsExact(s: State, b: nat)
    requires Reachable(s)
    ensures var seen := GetMessages(s.w.store, s.w.config.bucketSize, b);
      && (forall m :: m in seen <==>
            m.index in s.w.store.rows && s.w.store.rows[m.index] == m.row
            && m.index >= 0 && BucketOf(s.w.config.bucketSize, m.index) == b)
      && (forall j, k :: 0 <= j < k < |seen| ==> seen[j].index < seen[k].index)
      && (|seen| == s.w.config.bucketSize <==>
            forall i :: StartOf(s.w.config.bucketSize, b) <= i < StartOf(s.w.config.bucketSize, b + 1)
                        ==> i in s.w.store.rows)
  {
    ReachableInv(s);
    GetMessagesIsBucket(s.w.store, s.w.config.bucketSize, b);
  }

  // Tombstone soundness: every index of a closed bucket has been handed out, so the next
  // index to be handed out lies beyond it.
  lemma TombstoneSoundness(s: State, b: int)
    requires Reachable(s) && b in s.w.store.tombs
    ensures forall i :: StartOf(s.w.config.bucketSize, b) <= i < StartOf(s.w.config.bucketSize, b + 1)
              ==> i in s.w.owner
    ensures s.w.store.counter >= 0 && BucketOf(s.w.config.bucketSize, s.w.store.counter) > b
  {
    ReachableInv(s);
    BeforeBucket(s.w.config.bucketSize, s.w.store.counter, b + 1);
    StartOfMonotone(s.w.config.bucketSize, 0, b);
  }

  // The closed buckets are [0, reader) or [0, reader]; the repair pointer is at most one
  // past the reader, and while it is behind the reader its bucket is closed, so the
  // repairer never has to wait for a tombstone.
  lemma ClosedBucketsArePrefix(s: State)
    requires Reachable(s)
    ensures var t := s.w.store;
      && (forall b :: b in t.tombs ==> 0 <= b <= t.reader)
      && (forall b :: 0 <= b < t.reader ==> b in t.tombs)
      && (forall b :: 0 <= b < t.repair ==> b in t.tombs)
      && 0 <= t.repair <= t.reader + 1
      && (t.repair < t.reader ==> t.repair in t.tombs)
  {
    ReachableInv(s);
    if s.w.store.repair > 0 { assert s.w.store.repair - 1 in s.w.store.tombs; }
  }

  // Both bucket pointers move one bucket at a time, and only past a closed bucket.
  lemma PointersStepByOne(s: State, e: Event)
    requires Reachable(s)
    ensures var a, b := s.w.store, Next(s, e).w.store;
      && (b.reader != a.reader ==> b.reader == a.reader + 1 && a.reader in a.tombs)
      && (b.repair != a.repair ==> b.repair == a.repair + 1 && a.repair in a.tombs)
  {
    ReachableInv(s);
    if e.Step? && e.p < |s.procs| {
      assert Local(s.w, e.p, s.procs[e.p]);
      ChoiceOk(s.w, e.p, s.procs[e.p], e.choice);
    }
  }

  // The version law: 1 for the insert, plus the deliveries, plus the acks.
  lemma VersionLawHolds(s: State, i: int)
    requires Reachable(s) && i in s.w.store.rows
    ensures i in s.w.log && |s.w.log[i]| >= 1 && Last(s.w.log[i]).row == s.w.store.rows[i]
    ensures var row := s.w.store.rows[i];
      && row.version == 1 + row.deliveryCount + Acks(s.w.log[i])
      && row.deliveryCount >= 0
      && (row.acked <==> Acks(s.w.log[i]) > 0)
  {
    ReachableInv(s);
    VersionLaw(s.w.log[i]);
  }

  // When the version is deliveryCount + 1, plus one if the row is acked, and when a row is
  // acked at most once: exactly when no ack of the row presented a version that an ack
  // had written.
  lemma VersionLawIff(s: State, i: int)
    requires Reachable(s) && i in s.w.store.rows
    ensures i in s.w.log
    ensures var row := s.w.store.rows[i];
      row.version == row.deliveryCount + 1 + (if row.acked then 1 else 0) <==> !ReAcked(s.w.log[i])
    ensures Acks(s.w.log[i]) <= 1 <==> !ReAcked(s.w.log[i])
  {
    VersionLawHolds(s, i);
    ReachableInv(s);
    AckedOnceIff(s.w.log[i]);
  }

  // Lease exclusivity: of two deliveries of one message, the later one starts strictly
  // after the earlier lease has run out, through both consume paths.
  lemma LeaseExclusivity(s: State, i: int, a: nat, b: nat)
    requires Reachable(s) && i in s.w.log && a < b < |s.w.log[i]|
    requires s.w.log[i][a].kind.Consumed? && s.w.log[i][b].kind.Consumed?
    ensures s.w.log[i][a].clock + s.w.log[i][a].kind.duration < s.w.log[i][b].clock
  {
    ReachableInv(s);
    LeasesAreDisjoint(s.w.log[i], a, b);
  }

  // Receipt fencing, as a property of one step: the ack of an issued receipt takes effect
  // only while the delivery that issued it is the last thing that happened to the row.
  lemma AckNeedsLatestDelivery(s: State, p: nat, tag: string)
    requires Reachable(s) && p < |s.procs| && s.procs[p].AckCas?
    requires Ackable(s.w.store, s.procs[p].m)
    requires s.procs[p].m.index in s.w.log && Issued(s.w.log[s.procs[p].m.index], s.procs[p].m.row.version)
    ensures var i := s.procs[p].m.index;
      && !s.w.store.rows[i].acked
      && Last(s.w.log[i]).kind.Consumed? && |s.w.log[i]| == s.procs[p].m.row.version
      && Acked(Next(s, Step(p, Go(tag))).w, i)
  {
    ReachableInv(s);
    assert Local(s.w, p, s.procs[p]);
    CurrentIfSameVersion(s.w, s.procs[p].m);
    var log := s.w.log[s.procs[p].m.index];
    assert FollowsAt(log, |log| - 1);
  }

  // Receipt fencing over whole runs: a message is acked at most once by issued receipts,
  // and after that ack it is never delivered again.
  lemma ReceiptFencing(s: State, i: int, a: nat, b: nat)
    requires Reachable(s) && i in s.w.log && 0 < a < |s.w.log[i]| && 0 < b < |s.w.log[i]|
    requires IsAck(s.w.log[i][a]) && Issued(s.w.log[i], a)
    ensures b > a ==> !s.w.log[i][b].kind.Consumed?
    ensures IsAck(s.w.log[i][b]) && Issued(s.w.log[i], b) ==> a == b
  {
    ReachableInv(s);
    IssuedReceiptFences(s.w.log[i], a);
    if IsAck(s.w.log[i][b]) && Issued(s.w.log[i], b) {
      AckedAtMostOnce(s.w.log[i], a, b);
    }
  }

  lemma AckedRowKept(w: World, v: World, i: int)
    requires LogInv(w) && LogInv(v) && i in w.log && i in v.log && w.log[i] <= v.log[i]
    requires w.store.rows[i].acked
    ensures v.store.rows[i].acked && v.store.rows[i].deliveryCount == w.store.rows[i].deliveryCount
    ensures v.store.rows[i].blob == w.store.rows[i].blob
  {
    assert v.log[i][|w.log[i]| - 1] == Last(w.log[i]);
    OnlyForward(v.log[i], |w.log[i]| - 1, |v.log[i]| - 1);
  }

  // An acked row is final: no event delivers it again or changes its payload.
  lemma AckIsFinal(s: State, e: Event, i: int)
    requires Reachable(s) && i in s.w.store.rows && s.w.store.rows[i].acked
    ensures var t := Next(s, e).w.store;
      i in t.rows && t.rows[i].acked && t.rows[i].deliveryCount == s.w.store.rows[i].deliveryCount
      && t.rows[i].blob == s.w.store.rows[i].blob
  {
    ReachableInv(s);
    var p := NextKeeps(s, e);
    AckedRowKept(s.w, Next(s, e).w, i);
  }

  // A lineage: each index is a republished copy of the one before it.
  ghost predicate Lineage(w: World, chain: seq<int>) {
    && |chain| > 0
    && (forall k :: 0 <= k < |chain| ==> chain[k] in w.store.rows)
    && (forall k :: 0 < k < |chain| ==> chain[k] in w.parent && w.parent[chain[k]] == chain[k - 1])
  }

  predicate AckedByClient(log: seq<Entry>) {
    exists k :: 0 <= k < |log| && log[k].kind == ClientAcked
  }

  lemma {:induction false} AckedBySomeone(log: seq<Entry>)
    requires ValidLog(log) && Acks(log) > 0
    ensures exists k :: 0 <= k < |log| && IsAck(log[k])
    decreases |log|
  {
    var n := |log| - 1;
    if n > 0 && !IsAck(log[n]) {
      PrefixIsValid(log, n);
      AckedBySomeone(log[..n]);
      var k :| 0 <= k < n && IsAck(log[..n][k]);
      assert IsAck(log[k]);
    }
  }

  lemma {:induction false} FollowLineage(w: World, i: int) returns (chain: seq<int>)
    requires Inv(w) && i in w.store.rows
    ensures Lineage(w, chain) && chain[0] == i
    ensures var j := chain[|chain| - 1];
      && w.store.rows[j].blob == w.store.rows[i].blob
      && (w.store.rows[j].acked ==> AckedByClient(w.log[j]))
    decreases w.store.counter - i
  {
    if Retired(w.log[i]) {
      assert Copied(w, i);
      var n :| n in w.parent && w.parent[n] == i;
      var rest := FollowLineage(w, n);
      chain := [i] + rest;
      forall k | 0 < k < |chain| ensures chain[k] in w.parent && w.parent[chain[k]] == chain[k - 1] {
        if k == 1 { assert chain[1] == n; } else { assert chain[k] == rest[k - 1] && chain[k - 1] == rest[k - 2]; }
      }
    } else {
      chain := [i];
      if w.store.rows[i].acked {
        VersionLaw(w.log[i]);
        AckedBySomeone(w.log[i]);
        var k :| 0 <= k < |w.log[i]| && IsAck(w.log[i][k]);
        assert w.log[i][k].kind == ClientAcked;
      }
    }
  }

  // Conservation (at least once): in every run, whatever repairers crash between put and
  // ack, every stored payload has in its republish lineage a row with that payload that
  // is not acked or was acked by a client.
  lemma Conservation(s: State, i: int) returns (chain: seq<int>)
    requires Reachable(s) && i in s.w.store.rows
    ensures Lineage(s.w, chain) && chain[0] == i
    ensures var j := chain[|chain| - 1];
      && j in s.w.log
      && s.w.store.rows[j].blob == s.w.store.rows[i].blob
      && (!s.w.store.rows[j].acked || AckedByClient(s.w.log[j]))
  {
    ReachableInv(s);
    chain := FollowLineage(s.w, i);
  }

  // The stored invisibility pointer is unset or names a message that was delivered at
  // least once, and it never leaves bucket 0.
  lemma InvisPointerStaysInBucketZero(s: State)
    requires Reachable(s)
    ensures var t := s.w.store;
      t.invis == -1
      || (0 <= t.invis && t.invis in t.rows && t.rows[t.invis].deliveryCount > 0
          && BucketOf(s.w.config.bucketSize, t.invis) == 0)
  {
    ReachableInv(s);
    if s.w.store.invis >= 0 {
      InBucket(s.w.config.bucketSize, s.w.store.invis, 0);
    }
  }

  lemma RaiseLeavesAcked(w: World, p: nat, e: Effect)
    requires Inv(w) && EffectOk(w, p, e) && Apply(w, p, e).store.invis > w.store.invis
    ensures w.store.invis == -1 || Acked(w, w.store.invis)
  {
  }

  // An event that raises the stored pointer leaves the unset value or an acked message.
  lemma InvisPointerSkipsNothing(s: State, e: Event)
    requires Reachable(s) && Next(s, e).w.store.invis > s.w.store.invis
    ensures s.w.store.invis == -1 || Acked(s.w, s.w.store.invis)
  {
    ReachableInv(s);
    ChoiceOk(s.w, e.p, s.procs[e.p], e.choice);
    RaiseLeavesAcked(s.w, e.p, ProcessStep(s.w, s.procs[e.p], e.choice).0);
  }

  // The getAndMark call a process is in, if it is in one.
  function ReaderCall(pc: Pc): Option<Call> {
    if pc.GetBucket? || pc.CheckComplete? || pc.CheckMonoton? || pc.TombstoneClock? || pc.TombstoneInsert?
       || pc.CasReader? || pc.FindVisible? then Some(pc.call)
    else if (pc.ConsumeClock? || pc.ConsumeCas?) && pc.caller.FromBucket? then Some(pc.caller.call)
    else None
  }

  // Lost consumes are paid for: a call has never lost the same snapshot twice, and each
  // snapshot it lost was overtaken by an entry of that very row which another process
  // wrote since the call began.  So the losses never outnumber the others' bumps.
  lemma LostConsumesArePaid(s: State, p: nat)
    requires Reachable(s) && p < |s.procs| && ReaderCall(s.procs[p]).Some?
    ensures var call := ReaderCall(s.procs[p]).value;
      && (forall j, k :: 0 <= j < k < |call.lost| ==> call.lost[j] != call.lost[k])
      && (forall j :: 0 <= j < |call.lost| ==> LossPaid(s.w, p, call.start, call.lost[j]))
      && |call.lost| <= s.w.bumps - call.start
  {
    ReachableInv(s);
    assert Local(s.w, p, s.procs[p]);
  }

  // The entry that overtook a lost snapshot is a delivery or an ack, and the one before
  // it is the snapshot's.
  lemma LossIsOvertaken(s: State, p: nat, start: nat, loss: Loss)
    requires Reachable(s) && LossPaid(s.w, p, start, loss)
    ensures var log := s.w.log[loss.index];
      && log[loss.version - 1].row.version == loss.version
      && log[loss.version].row.version == loss.version + 1
      && (log[loss.version].kind.Consumed? || IsAck(log[loss.version]))
  {
    ReachableInv(s);
    var log := s.w.log[loss.index];
    VersionIsPosition(log, loss.version - 1);
    VersionIsPosition(log, loss.version);
    assert FollowsAt(log, loss.version);
  }

  // A step of the call that bumps a row itself ends the call.
  lemma OwnBumpEndsTheCall(s: State, p: nat, c: Choice)
    requires p < |s.procs| && ReaderCall(s.procs[p]).Some?
    ensures var t := Next(s, Step(p, c));
      && (t.w.bumps > s.w.bumps ==> t.procs[p].Idle?)
      && (ReaderCall(t.procs[p]).Some? ==>
            ReaderCall(t.procs[p]).value.start == ReaderCall(s.procs[p]).value.start
            && ReaderCall(s.procs[p]).value.lost <= ReaderCall(t.procs[p]).value.lost)
  {
  }

  // Likewise for nextMonotonic: every index handed out since the loop began went to
  // another process, and there are at least as many of them as lost iterations.
  lemma LostAllocationsArePaid(s: State, p: nat)
    requires Reachable(s) && p < |s.procs| && (s.procs[p].MonotonRead? || s.procs[p].MonotonCas?)
    ensures var race := s.procs[p].race;
      && (forall n :: race.start <= n < s.w.store.counter ==> n in s.w.owner && s.w.owner[n] != p)
      && race.lost <= s.w.store.counter - race.start
  {
    ReachableInv(s);
    assert Local(s.w, p, s.procs[p]);
  }
}
