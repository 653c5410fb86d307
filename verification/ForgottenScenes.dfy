// Messages out of reach exist.  One that is not first in its bucket: a reachable state of a
// queue with two messages to a bucket.
module ForgottenMessage {
  import opened Buckets
  import opened Tables
  import opened Machine
  import opened ServiceSpec
  import opened QueueTheorems
  import opened Runs
  import opened Scenes
  import Forgotten

  // The table holds message 3 alone, and the counter has left its bucket.
  ghost predicate OnlyRow3(w: World) {
    && w.config.bucketSize == 2 && w.store.rows.Keys == {3} && w.store.counter == 4 && w.store.invis == -1
  }

  lemma WhereRow3Is(w: World)
    requires OnlyRow3(w)
    ensures InBucketOf(w.config, 3, 1) && !InBucketOf(w.config, 3, 0) && !InBucketOf(w.config, 3, 2)
    ensures Complete(w.config, w.store, 0, w.now) && Closable(w.config, w.store, 0)
    ensures Closable(w.config, w.store, 1) && Complete(w.config, w.store, 2, w.now)
    ensures !Closable(w.config, w.store, 2)
    ensures !w.store.rows[3].Visible(w.now) ==> Complete(w.config, w.store, 1, w.now)
    ensures Deliverable(w.store, 3, w.now) ==> FirstDeliverable(w.config, w.store, 1, w.now, 3)
  {
    assert 4 !in w.store.rows;
    assert StartOf(2, 2) <= 4 < StartOf(2, 3);
  }

  lemma PutThree(now: int, timeout: int) returns (s: State)
    ensures Reachable(s) && s.procs == [Idle] && OnlyRow3(s.w) && s.w.store.reader == 0 && s.w.now == now + 1
    ensures s.w.store.rows[3] == NewRow("payload", TAG, now) && s.w.config == Config(2, timeout)
  {
    s := Begins(Config(2, timeout), now, 1);
    s := AbandonsMany(s, 0, 3);
    s := Allocates(s, 0, "payload", 0);
    s := Inserts(s, 0, "payload", 0, 3);
    s := Waits(s, 1);
  }

  // Reading up to bucket b, past buckets with nothing to deliver.
  lemma ReadsTo1(s: State, d: int) returns (t: State, call: Call)
    requires Reachable(s) && s.procs == [Idle] && OnlyRow3(s.w) && s.w.store.reader == 0
    ensures Reachable(t) && t.procs == [GetBucket(d, 1, call)] && OnlyRow3(t.w) && t.w.store.reader == 1
    ensures t.w.store.rows == s.w.store.rows && t.w.now == s.w.now && t.w.config == s.w.config
  {
    call := Call(s.w.bumps, []);
    t := ReadsAndCloses(s, d, 0);
    t := MovesOn(t, 0, d, 0, call);
  }

  // Reading the stored bucket, which has nothing to deliver.
  lemma ReadsAndCloses(s: State, d: int, b: int) returns (t: State)
    requires Reachable(s) && s.procs == [Idle] && OnlyRow3(s.w) && s.w.store.reader == b
    requires b == 0 || (b == 1 && !s.w.store.rows[3].Visible(s.w.now))
    ensures Reachable(t) && t == State(Closing(s.w, b), [CasReader(d, b, Call(s.w.bumps, []))])
  {
    WhereRow3Is(s.w);
    t := Reads(s, 0, d);
    t := Closes(t, 0, d, b, Call(s.w.bumps, []));
  }

  lemma LeasedAndPassed(now: int, timeout: int) returns (s: State)
    ensures Reachable(s) && s.procs == [Idle] && OnlyRow3(s.w) && s.w.store.reader == 2
    ensures !s.w.store.rows[3].acked && s.w.store.rows[3].deliveryCount == 1
    ensures s.w.store.rows[3].nextVisible == s.w.now + 10 && s.w.config == Config(2, timeout)
  {
    s := PutThree(now, timeout);
    var call: Call;
    s, call := ReadsTo1(s, 10);
    WhereRow3Is(s.w);
    s := Delivers(s, 0, 10, 1, call, 3);
    s := PassesLeased(s);
  }

  // The next call finds the lease running, closes bucket 1,
  lemma ClosesLeased(s: State) returns (t: State)
    requires Reachable(s) && s.procs == [Idle] && OnlyRow3(s.w) && s.w.store.reader == 1
    requires !s.w.store.rows[3].Visible(s.w.now)
    ensures Reachable(t) && t.procs == [GetBucket(10, 2, Call(s.w.bumps, []))] && OnlyRow3(t.w)
    ensures t.w.store.rows == s.w.store.rows && t.w.now == s.w.now && t.w.config == s.w.config && t.w.store.reader == 2
  {
    t := ReadsAndCloses(s, 10, 1);
    t := MovesOn(t, 0, 10, 1, Call(s.w.bumps, []));
  }

  // and finds nothing.
  lemma PassesLeased(s: State) returns (t: State)
    requires Reachable(s) && s.procs == [Idle] && OnlyRow3(s.w) && s.w.store.reader == 1
    requires !s.w.store.rows[3].Visible(s.w.now)
    ensures Reachable(t) && t.procs == [Idle] && OnlyRow3(t.w) && t.w.store.reader == 2
    ensures t.w.store.rows == s.w.store.rows && t.w.now == s.w.now && t.w.config == s.w.config
  {
    t := ClosesLeased(s);
    WhereRow3Is(t.w);
    t := FindsNothing(t, 0, 10, 2, Call(s.w.bumps, []));
  }

  // A reachable state in which an unacked message whose lease has run out is out of every
  // reader's reach.  By ForgottenForever it is never delivered again.
  lemma MessagesAreForgotten(now: int, timeout: int) returns (s: State)
    ensures Reachable(s) && s.w.config == Config(2, timeout)
    ensures Deliverable(s.w.store, 3, s.w.now) && s.w.store.rows[3].deliveryCount == 1
    ensures Forgotten.OutOfReach(s, 3, 1)
    ensures forall events :: Run(s, events).w.store.rows.Keys >= {3}
                          && Run(s, events).w.store.rows[3].deliveryCount == 1
  {
    s := LeasedAndPassed(now, timeout);
    s := Waits(s, 11);
    WhereRow3Is(s.w);
    forall events ensures 3 in Run(s, events).w.store.rows && Run(s, events).w.store.rows[3].deliveryCount == 1 {
      Forgotten.ForgottenForever(s, events, 3, 1);
    }
  }
}

// One in bucket 0, and one that is first in its bucket, for every configuration.
module ForgottenStarts {
  import opened Buckets
  import opened Tables
  import opened Machine
  import opened ServiceSpec
  import opened QueueTheorems
  import opened Scenes
  import opened Forgotten

  // ---- whole buckets ----

  // One message, and the rest of the bucket abandoned.
  lemma FillsBucket(s: State, p: nat) returns (t: State)
    requires Reachable(s) && p < |s.procs| && s.procs[p].Idle?
    ensures Reachable(t) && t.procs == s.procs
    ensures t.w.config == s.w.config && t.w.now == s.w.now && t.w.bumps == s.w.bumps
    ensures var n := s.w.store.counter;
      t.w.store == s.w.store.(counter := n + s.w.config.bucketSize,
                              rows := s.w.store.rows[n := NewRow("payload", TAG, s.w.now)])
  {
    t := Writes(s, p);
    t := AbandonsMany(t, p, s.w.config.bucketSize - 1);
  }

  // A reader closes a bucket and goes on to the next one.
  lemma GoesPast(s: State, p: nat, b: int, call: Call) returns (t: State)
    requires Reachable(s) && p < |s.procs| && s.procs[p] == GetBucket(10, b, call) && s.w.store.reader == b >= 0
    requires Complete(s.w.config, s.w.store, b, s.w.now) && Closable(s.w.config, s.w.store, b)
    ensures Reachable(t) && t.procs == s.procs[p := GetBucket(10, b + 1, call)]
    ensures t.w.config == s.w.config && t.w.now == s.w.now && t.w.bumps == s.w.bumps
    ensures t.w.store == s.w.store.(reader := b + 1, tombs := t.w.store.tombs)
  {
    t := Closes(s, p, 10, b, call);
    t := MovesOn(t, p, 10, b, call);
  }

  lemma Starts3(bucketSize: int)
    requires bucketSize >= 1
    ensures StartOf(bucketSize, 0) == 0 && StartOf(bucketSize, 1) == bucketSize
    ensures StartOf(bucketSize, 2) == 2 * bucketSize && StartOf(bucketSize, 3) == 3 * bucketSize
    ensures StartOf(bucketSize, 4) == 4 * bucketSize
    ensures BucketOf(bucketSize, 0) == 0 && BucketOf(bucketSize, bucketSize) == 1
    ensures BucketOf(bucketSize, 2 * bucketSize) == 2 && BucketOf(bucketSize, 3 * bucketSize) == 3
  {
    InBucket(bucketSize, 0, 0);
    InBucket(bucketSize, bucketSize, 1);
    InBucket(bucketSize, 2 * bucketSize, 2);
    InBucket(bucketSize, 3 * bucketSize, 3);
  }

  // ---- bucket 0 ----

  // Bucket 0 handed out in full, with message 0 alone in it.
  ghost predicate OnlyRow0(w: World) {
    w.store.rows.Keys == {0} && w.store.counter == w.config.bucketSize && w.store.invis == -1
  }

  lemma WhereRow0Is(w: World)
    requires OnlyRow0(w)
    ensures Closable(w.config, w.store, 0) && Complete(w.config, w.store, 1, w.now)
    ensures !Closable(w.config, w.store, 1) && InBucketOf(w.config, 0, 0)
    ensures Leased(w.store, 0, w.now) ==> Complete(w.config, w.store, 0, w.now)
    ensures Deliverable(w.store, 0, w.now) ==> FirstDeliverable(w.config, w.store, 0, w.now, 0)
  {
    Starts3(w.config.bucketSize);
    assert w.config.bucketSize !in w.store.rows;
  }

  // Two readers that scanned before message 0 was there.
  lemma TwoComeEarly(config: Config, now: int) returns (s: State)
    ensures Reachable(s) && s.procs == [Idle, GetBucket(10, 0, Call(0, [])), GetBucket(10, 0, Call(0, []))]
    ensures s.w.config == config && s.w.now == now + 1 && OnlyRow0(s.w) && s.w.store.reader == 0
    ensures s.w.store.rows[0] == NewRow("payload", TAG, now)
  {
    s := Begins(config, now, 3);
    s := Reads(s, 1, 10);
    s := Reads(s, 2, 10);
    s := FillsBucket(s, 0);
    s := Waits(s, 1);
  }

  // One of them takes it, the other one goes past it.
  lemma OneTakesIt(config: Config, now: int) returns (s: State)
    ensures Reachable(s) && s.procs == [Idle, Idle, Idle]
    ensures s.w.config == config && OnlyRow0(s.w) && s.w.store.reader == 1
    ensures !s.w.store.rows[0].acked && s.w.store.rows[0].deliveryCount == 1
    ensures s.w.store.rows[0].nextVisible == s.w.now + 10
  {
    s := TwoComeEarly(config, now);
    WhereRow0Is(s.w);
    s := Delivers(s, 1, 10, 0, Call(0, []), 0);
    WhereRow0Is(s.w);
    s := GoesPast(s, 2, 0, Call(0, []));
    WhereRow0Is(s.w);
    s := FindsNothing(s, 2, 10, 1, Call(0, []));
  }

  // For every configuration: a reachable state in which message 0, delivered once, unacked
  // and with its lease run out, is out of reach for good.
  lemma ForgottenInBucket0(config: Config, now: int) returns (s: State)
    ensures Reachable(s) && s.w.config == config && OutOfReach(s, 0, 0)
    ensures Deliverable(s.w.store, 0, s.w.now) && s.w.store.rows[0].deliveryCount == 1
    ensures forall events :: 0 in Run(s, events).w.store.rows && Run(s, events).w.store.rows[0].deliveryCount == 1
  {
    s := OneTakesIt(config, now);
    s := Waits(s, 11);
    WhereRow0Is(s.w);
    forall events ensures 0 in Run(s, events).w.store.rows && Run(s, events).w.store.rows[0].deliveryCount == 1 {
      ForgottenForever(s, events, 0, 0);
    }
  }

  // ---- behind a first message that was acked undelivered ----

  // Buckets 0 to 2 handed out in full, with the first messages of buckets 1 and 2 alone.
  ghost predicate TwoRows(w: World) {
    var x := w.config.bucketSize;
    && w.store.rows.Keys == {x, 2 * x} && w.store.counter == 3 * x && w.store.invis == -1
    && w.store.rows[x].acked && w.store.rows[x].deliveryCount == 0
  }

  lemma WhereTwoRowsAre(w: World)
    requires TwoRows(w)
    ensures Blocks(w, 1) && 2 * w.config.bucketSize == StartOf(w.config.bucketSize, 2)
    ensures forall b :: 0 <= b <= 2 ==> Closable(w.config, w.store, b)
    ensures !Closable(w.config, w.store, 3) && InBucketOf(w.config, 2 * w.config.bucketSize, 2)
    ensures Complete(w.config, w.store, 0, w.now) && Complete(w.config, w.store, 1, w.now)
    ensures Complete(w.config, w.store, 3, w.now)
    ensures Leased(w.store, 2 * w.config.bucketSize, w.now) ==> Complete(w.config, w.store, 2, w.now)
    ensures Deliverable(w.store, 2 * w.config.bucketSize, w.now) ==>
      FirstDeliverable(w.config, w.store, 2, w.now, 2 * w.config.bucketSize)
  {
    Starts3(w.config.bucketSize);
    assert 3 * w.config.bucketSize !in w.store.rows;
  }

  // No row lies in bucket 0, so a scan ends there.
  lemma NoneInBucket0(w: World)
    requires TwoRows(w)
    ensures forall i :: 0 <= i < w.config.bucketSize ==> i !in w.store.rows
  {
  }

  lemma WritesTwo(config: Config, now: int) returns (s: State)
    ensures Reachable(s) && s.procs == [Idle, Idle] && s.w.config == config && TwoRows(s.w)
    ensures s.w.store.reader == 0 && s.w.now == now + 1
    ensures s.w.store.rows[2 * config.bucketSize] == NewRow("payload", TAG, now)
  {
    s := WritesOne(config, now);
    s := FillsBucket(s, 0);
    s := Waits(s, 1);
  }

  // Bucket 0 abandoned, the first message of bucket 1 acked without a delivery.
  lemma WritesOne(config: Config, now: int) returns (s: State)
    ensures Reachable(s) && s.procs == [Idle, Idle] && s.w.config == config && s.w.now == now
    ensures var x := config.bucketSize;
      && x in s.w.store.rows && s.w.store.rows[x].acked && s.w.store.rows[x].deliveryCount == 0
      && s.w.store == EMPTY_STORE.(counter := 2 * x, rows := map[x := s.w.store.rows[x]])
  {
    s := Begins(config, now, 2);
    s := AbandonsMany(s, 0, config.bucketSize);
    s := FillsBucket(s, 0);
    s := AcksMessage(s, 0, config.bucketSize);
  }

  lemma ComesToSecond(config: Config, now: int) returns (s: State, call: Call)
    ensures Reachable(s) && s.procs == [Idle, GetBucket(10, 2, call)] && s.w.config == config && TwoRows(s.w)
    ensures s.w.store.reader == 2 && s.w.now == now + 1
    ensures s.w.store.rows[2 * config.bucketSize] == NewRow("payload", TAG, now)
  {
    s := WritesTwo(config, now);
    NoneInBucket0(s.w);
    call := Call(s.w.bumps, []);
    s := Reads(s, 1, 10);
    WhereTwoRowsAre(s.w);
    s := GoesPast(s, 1, 0, call);
    WhereTwoRowsAre(s.w);
    s := GoesPast(s, 1, 1, call);
  }

  lemma TakesSecond(config: Config, now: int) returns (s: State)
    ensures Reachable(s) && s.procs == [Idle, Idle] && s.w.config == config && TwoRows(s.w)
    ensures s.w.store.reader == 2
    ensures var row := s.w.store.rows[2 * config.bucketSize];
      !row.acked && row.deliveryCount == 1 && row.nextVisible == s.w.now + 10
  {
    var call;
    s, call := ComesToSecond(config, now);
    WhereTwoRowsAre(s.w);
    s := Delivers(s, 1, 10, 2, call, 2 * config.bucketSize);
  }

  lemma PassesSecond(s: State) returns (t: State, call: Call)
    requires Reachable(s) && s.procs == [Idle, Idle] && TwoRows(s.w) && s.w.store.reader == 2
    requires Leased(s.w.store, 2 * s.w.config.bucketSize, s.w.now)
    ensures Reachable(t) && t.procs == [Idle, GetBucket(10, 3, call)] && t.w.config == s.w.config
    ensures t.w.now == s.w.now && t.w.store == s.w.store.(reader := 3, tombs := t.w.store.tombs)
  {
    NoneInBucket0(s.w);
    call := Call(s.w.bumps, []);
    t := Reads(s, 1, 10);
    WhereTwoRowsAre(t.w);
    t := GoesPast(t, 1, 2, call);
  }

  lemma LeavesSecond(config: Config, now: int) returns (s: State)
    ensures Reachable(s) && s.procs == [Idle, Idle] && s.w.config == config && TwoRows(s.w)
    ensures s.w.store.reader == 3
    ensures var row := s.w.store.rows[2 * config.bucketSize];
      !row.acked && row.deliveryCount == 1 && row.nextVisible == s.w.now + 10
  {
    s := TakesSecond(config, now);
    var call;
    s, call := PassesSecond(s);
    WhereTwoRowsAre(s.w);
    s := FindsNothing(s, 1, 10, 3, call);
  }

  // For every configuration: a reachable state in which the first message of bucket 2,
  // delivered once, unacked and with its lease run out, is out of reach for good.
  lemma ForgottenStart(config: Config, now: int) returns (s: State)
    ensures Reachable(s) && s.w.config == config && Stopped(s, 1)
    ensures var i := StartOf(config.bucketSize, 2);
      && OutOfReach(s, i, 2) && Deliverable(s.w.store, i, s.w.now) && s.w.store.rows[i].deliveryCount == 1
      && forall events :: i in Run(s, events).w.store.rows && Run(s, events).w.store.rows[i].deliveryCount == 1
  {
    s := LeavesSecond(config, now);
    s := Waits(s, 11);
    WhereTwoRowsAre(s.w);
    var i := StartOf(config.bucketSize, 2);
    assert Stopped(s, 1);
    forall events ensures i in Run(s, events).w.store.rows && Run(s, events).w.store.rows[i].deliveryCount == 1 {
      ForgottenForever(s, events, i, 2);
    }
  }
}
