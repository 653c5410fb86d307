// Two repairers, or two readers, are enough for one of them to go round for ever.
module StuckRetries {
  import opened Buckets
  import opened Machine
  import opened Invariants
  import opened ServiceSpec
  import opened QueueTheorems
  import opened Solo
  import opened Scenes
  import opened Retries

  // A repairer that comes to the compare-and-set of the stored bucket.
  lemma ComesToRepair(s: State, p: nat, b: int) returns (t: State)
    requires Reachable(s) && p < |s.procs| && s.procs[p].Idle?
    requires b >= 0 && s.w.store.repair == b && b in s.w.store.tombs && FullAcked(s.w, b)
    ensures Reachable(t) && t == At(s, p, s.w, CasRepairFull(b))
  {
    ReachableInv(s);
    var u := Asks(s, p, RepairPass);
    TombstoneIsFound(u, p, s.w, b);
    FullIsFound(u, p, s.w, b, s.w.store.tombs[b]);
    t := Arrives(s, u, p, s.w, CasRepairFull(b));
  }

  lemma TombstoneIsFound(s: State, p: nat, w: World, b: int)
    requires Comes(s, p, TAG, w, ReadRepair) && w.store.repair == b && b in w.store.tombs
    ensures Comes(s, p, TAG, w, FindFull(b, w.store.tombs[b]))
  {
    GoesOn(s, p, TAG, w, ReadRepair, FindTombstone(b));
    GoesOn(s, p, TAG, w, FindTombstone(b), FindFull(b, w.store.tombs[b]));
  }

  lemma FullIsFound(s: State, p: nat, w: World, b: int, at: int)
    requires Comes(s, p, TAG, w, FindFull(b, at)) && Inv(w) && b >= 0 && FullAcked(w, b)
    ensures Comes(s, p, TAG, w, CasRepairFull(b))
  {
    FullAckedReads(w, b);
    GoesOn(s, p, TAG, w, FindFull(b, at), CasRepairFull(b));
  }

  lemma PassesOn(s: State, p: nat, b: int) returns (t: State)
    requires Reachable(s) && p < |s.procs| && s.procs[p] == CasRepairFull(b) && s.w.store.repair == b
    ensures Reachable(t) && t == At(s, p, Passed(s.w, b), FindTombstone(b + 1))
  {
    Starts(s, p, TAG);
    PassesBucket(s, p, TAG, s.w, b);
    t := Arrives(s, s, p, Passed(s.w, b), FindTombstone(b + 1));
  }

  // One message, written and acked by a client.
  lemma WritesAcked(s: State, p: nat) returns (t: State)
    requires Reachable(s) && p < |s.procs| && s.procs[p].Idle?
    ensures Reachable(t) && t.procs == s.procs && t.w.config == s.w.config
    ensures var n := s.w.store.counter;
      && n in t.w.store.rows && t.w.store.rows[n].acked
      && t.w.store == s.w.store.(counter := n + 1, rows := s.w.store.rows[n := t.w.store.rows[n]])
  {
    t := Writes(s, p);
    t := AcksMessage(t, p, s.w.store.counter);
  }

  lemma {:induction false} WritesManyAcked(s: State, p: nat, n: nat) returns (t: State)
    requires Reachable(s) && p < |s.procs| && s.procs[p].Idle?
    ensures Reachable(t) && t.procs == s.procs && t.w.config == s.w.config
    ensures t.w.store == s.w.store.(counter := s.w.store.counter + n, rows := t.w.store.rows)
    ensures forall i :: s.w.store.counter <= i < s.w.store.counter + n ==> Acked(t.w, i)
  {
    if n == 0 {
      t := s;
    } else {
      var u := WritesManyAcked(s, p, n - 1);
      t := WritesAcked(u, p);
      forall i | s.w.store.counter <= i < s.w.store.counter + n ensures Acked(t.w, i) {
        if i < u.w.store.counter { assert Acked(u.w, i); }
      }
    }
  }

  // Bucket 0 written and acked in full, and closed by a reader that came to it before.
  lemma ClosedBucket(config: Config, now: int) returns (s: State)
    ensures Reachable(s) && |s.procs| == 4 && s.procs[2].Idle? && s.procs[3].Idle?
    ensures s.w.config == config && s.w.store.repair == 0 && 0 in s.w.store.tombs && FullAcked(s.w, 0)
  {
    s := AckedBucket(config, now);
    FullIsComplete(s.w);
    var w := s.w;
    s := Closes(s, 1, 0, 0, Call(0, []));
    SameRowsSameAcked(w, s.w, 0);
  }

  lemma AckedBucket(config: Config, now: int) returns (s: State)
    ensures Reachable(s) && s.procs == [Idle, GetBucket(0, 0, Call(0, [])), Idle, Idle]
    ensures s.w.config == config && s.w.store.repair == 0 && s.w.store.reader == 0 && s.w.store.tombs == map[]
    ensures FullAcked(s.w, 0)
  {
    s := Begins(config, now, 4);
    s := Reads(s, 1, 0);
    s := WritesManyAcked(s, 0, config.bucketSize);
  }

  lemma FullIsComplete(w: World)
    requires FullAcked(w, 0)
    ensures Complete(w.config, w.store, 0, w.now) && Closable(w.config, w.store, 0)
  {
    forall i | i in w.store.rows && InBucketOf(w.config, i, 0) ensures !Deliverable(w.store, i, w.now) {
      InBucket(w.config.bucketSize, i, 0);
      assert Acked(w, i);
    }
    forall i | StartOf(w.config.bucketSize, 0) <= i < StartOf(w.config.bucketSize, 1) ensures i in w.store.rows {
      assert Acked(w, i);
    }
  }

  // For every configuration: a reachable state in which a repairer has been overtaken.  By
  // OvertakenForever it never leaves its search again.
  lemma RepairerCanBeOvertaken(config: Config, now: int) returns (s: State)
    ensures Reachable(s) && s.w.config == config && Overtaken(s, 3, 0)
  {
    s := ClosedBucket(config, now);
    s := ComesToRepair(s, 2, 0);
    s := ComesToRepair(s, 3, 0);
    var w := s.w;
    s := PassesOn(s, 2, 0);
    SameRowsSameAcked(w, s.w, 0);
  }

  lemma SameRowsSameAcked(w: World, v: World, b: int)
    requires v.store.rows == w.store.rows && v.config == w.config && FullAcked(w, b)
    ensures FullAcked(v, b)
  {
    forall i | StartOf(v.config.bucketSize, b) <= i < StartOf(v.config.bucketSize, b + 1) ensures Acked(v, i) {
      assert Acked(w, i);
    }
  }

  // Two readers at the compare-and-set of an empty bucket 0, handed out in full.
  lemma TwoReaders(config: Config, now: int) returns (s: State)
    ensures Reachable(s) && |s.procs| == 3 && s.w.config == config
    ensures s.procs[1] == CasReader(0, 0, Call(0, [])) && s.procs[2] == CasReader(0, 0, Call(0, []))
    ensures s.w.store.reader == 0 && s.w.store.rows == map[]
  {
    s := Begins(config, now, 3);
    s := AbandonsMany(s, 0, config.bucketSize);
    HandedOutIsClosable(s.w);
    s := Reads(s, 1, 0);
    s := Reads(s, 2, 0);
    s := Closes(s, 1, 0, 0, Call(0, []));
    s := Closes(s, 2, 0, 0, Call(0, []));
  }

  lemma HandedOutIsClosable(w: World)
    requires w.store.counter == w.config.bucketSize
    ensures Closable(w.config, w.store, 0)
  {
    InBucket(w.config.bucketSize, w.store.counter, 1);
  }

  // A reachable state in which a reader has been overtaken on a bucket with nothing to
  // deliver: by ReaderReturnsIff it does not return by itself.
  lemma ReaderCanBeOvertaken(config: Config, now: int) returns (s: State)
    ensures Reachable(s) && s.w.config == config && 2 < |s.procs| && s.procs[2] == CasReader(0, 0, Call(0, []))
    ensures s.w.store.reader > 0 && Complete(s.w.config, s.w.store, 0, s.w.now)
    ensures forall n: nat :: !Alone(s, 2, TAG, n).procs[2].Idle?
  {
    s := TwoReaders(config, now);
    s := MovesOn(s, 1, 0, 0, Call(0, []));
    ReaderReturnsIff(s, 2, TAG, 0, 0, Call(0, []));
  }
}
