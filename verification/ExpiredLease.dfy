// Where redelivery ends.  The reader closes buckets whose messages are out for delivery,
// and the invisibility scan behind it looks only at the message under the stored pointer
// and at first messages of buckets.  So the promise that an unacked message comes back
// after its lease holds of exactly the messages this file describes.
module ExpiredLease {
  import opened Wrappers
  import opened Buckets
  import opened Tables
  import opened Machine
  import opened ServiceSpec
  import opened QueueService

  // A bucket with rows, none of which is out for delivery.
  ghost predicate Quiet(config: Config, s: Store, now: int, b: int) {
    && (exists j :: j in s.rows && InBucketOf(config, j, b))
    && (forall j :: InBucketOf(config, j, b) ==> !Leased(s, j, now))
  }

  // Message i is first in bucket b, and nothing between the pointer and bucket b stops a
  // scan: the pointer's message and the first messages of the buckets between are absent
  // or acked deliveries, and every bucket before b has rows and no running lease.
  ghost predicate Clear(config: Config, s: Store, now: int, p: int, i: int, b: int) {
    var first := InvisBucket(config.bucketSize, p);
    && b > first && i == StartOf(config.bucketSize, b)
    && Left(s, p)
    && (forall c :: first < c < b ==> Left(s, StartOf(config.bucketSize, c)))
    && (forall c :: first <= c < b ==> Quiet(config, s, now, c))
  }

  ghost predicate ComesBack(config: Config, s: Store, now: int, p: int, i: int) {
    i == p || exists b :: Clear(config, s, now, p, i, b)
  }

  lemma StartIsInBucket(config: Config, b: int)
    requires b >= 0
    ensures InvisBucket(config.bucketSize, StartOf(config.bucketSize, b)) == b
  {
    StartOfMonotone(config.bucketSize, 0, b);
    StartOfNext(config.bucketSize, b);
    InBucket(config.bucketSize, StartOf(config.bucketSize, b), b);
  }

  // From the next bucket's first message to the pointer, and back.
  lemma ClearOneMore(config: Config, s: Store, now: int, p: int, i: int, b: int)
    requires b > InvisBucket(config.bucketSize, p) + 1
    ensures Clear(config, s, now, p, i, b)
       <==> Left(s, p) && Quiet(config, s, now, InvisBucket(config.bucketSize, p))
            && Clear(config, s, now, NextBucketStart(config, p), i, b)
  {
    var first := InvisBucket(config.bucketSize, p);
    StartIsInBucket(config, first + 1);
    if Left(s, p) && Quiet(config, s, now, first) && Clear(config, s, now, NextBucketStart(config, p), i, b) {
      forall c | first < c < b ensures Left(s, StartOf(config.bucketSize, c)) {
        if c == first + 1 { assert StartOf(config.bucketSize, c) == NextBucketStart(config, p); }
      }
    }
    if Clear(config, s, now, p, i, b) {
      assert Left(s, StartOf(config.bucketSize, first + 1));
    }
  }

  lemma ClearPasses(config: Config, s: Store, now: int, p: int, i: int, b: int)
    requires Clear(config, s, now, p, i, b)
    ensures Passes(config, s, now, p)
  {
    assert Quiet(config, s, now, InvisBucket(config.bucketSize, p));
  }

  // Where the scan gets, without running it.
  lemma {:induction false} ReachesIff(config: Config, s: Store, now: int, p: int, i: int)
    requires StoreOk(config, s)
    ensures Reaches(config, s, now, p, i) <==> ComesBack(config, s, now, p, i)
    decreases Remaining(config, s, InvisBucket(config.bucketSize, p))
  {
    var first, next := InvisBucket(config.bucketSize, p), NextBucketStart(config, p);
    if p != i {
      if b :| Clear(config, s, now, p, i, b) { ClearPasses(config, s, now, p, i, b); }
      if Passes(config, s, now, p) {
        NextBucketRemains(config, s, p);
        ReachesIff(config, s, now, next, i);
        assert Quiet(config, s, now, first);
        if next == i {
          assert Clear(config, s, now, p, i, first + 1);
        } else {
          NextComesBack(config, s, now, p, i);
        }
      }
    }
  }

  lemma NextComesBack(config: Config, s: Store, now: int, p: int, i: int)
    requires Passes(config, s, now, p) && p != i && NextBucketStart(config, p) != i
    ensures ComesBack(config, s, now, NextBucketStart(config, p), i) <==> ComesBack(config, s, now, p, i)
  {
    var first, next := InvisBucket(config.bucketSize, p), NextBucketStart(config, p);
    StartIsInBucket(config, first + 1);
    assert Quiet(config, s, now, first);
    if b :| Clear(config, s, now, next, i, b) {
      ClearOneMore(config, s, now, p, i, b);
    }
    if b :| Clear(config, s, now, p, i, b) {
      if b > first + 1 { ClearOneMore(config, s, now, p, i, b); }
    }
  }

  // Exactly which expired lease behind the reader a call redelivers: the one under the
  // stored pointer, or the first message of a bucket that nothing before it blocks.
  lemma RedeliveredIffReached(config: Config, s: Store, t: Store, now: int, duration: int, r: Option<Message>, i: int)
    requires StoreOk(config, s) && Fetched(config, s, t, now, duration, r)
    requires Deliverable(s, i, now) && s.rows[i].deliveryCount > 0 && BucketOf(config.bucketSize, i) < s.reader
    ensures (r.Some? && r.value.index == i)
       <==> i == s.invis || exists b :: Clear(config, s, now, s.invis, i, b)
  {
    ReachesIff(config, s, now, s.invis, i);
  }

  // So only the message under the stored pointer and first messages of buckets can come
  // back from behind the reader.
  lemma OnlyStartsComeBack(config: Config, s: Store, t: Store, now: int, duration: int, m: Message)
    requires StoreOk(config, s) && Fetched(config, s, t, now, duration, Some(m))
    requires m.index in s.rows && BucketOf(config.bucketSize, m.index) < s.reader
    ensures m.index == s.invis || exists b :: b >= 1 && m.index == StartOf(config.bucketSize, b)
  {
    if m.index != s.invis {
      ReachesOnlyStarts(config, s, now, s.invis, m.index);
    }
  }

  // ---- a concrete loss ----

  const TWO := Config(2, 0)

  ghost predicate OnlyRow3(s: Store) {
    StoreOk(TWO, s) && s.counter == 4 && s.invis == -1 && s.rows.Keys == {3}
  }

  // Bucket 0 is empty, so the scan ends where it starts.
  lemma ScanEndsAtOnce(s: Store, t: Store, now: int, duration: int, r: Option<Message>)
    requires OnlyRow3(s) && Scanned(TWO, s, t, -1, now, duration, r)
    ensures r == None && t == s
  {
    InBucket(2, 3, 0);
    assert !Passes(TWO, s, now, -1);
    assert forall q :: !ParksFrom(TWO, s, t, now, -1, q);
  }

  lemma FetchIsMarkHere(s: Store, t: Store, now: int, duration: int, r: Option<Message>)
    requires OnlyRow3(s) && Fetched(TWO, s, t, now, duration, r)
    ensures Marked(TWO, s, t, now, duration, r)
  {
    if mid: Store :| Scanned(TWO, s, mid, s.invis, now, duration, None) && Marked(TWO, mid, t, now, duration, r) {
      ScanEndsAtOnce(s, mid, now, duration, None);
    } else {
      ScanEndsAtOnce(s, t, now, duration, r);
    }
  }

  lemma FirstFetch(s: Store, t: Store, duration: int, r: Option<Message>)
    requires OnlyRow3(s) && s.reader == 0 && s.rows[3] == NewRow("payload", "tag", 0)
    requires Fetched(TWO, s, t, 1, duration, r)
    ensures t.rows == map[3 := Row("payload", "tag", 2, false, 1 + duration, 1)]
    ensures t.counter == 4 && t.invis == -1 && t.reader <= 1
  {
    FetchIsMarkHere(s, t, 1, duration, r);
    InBucket(2, 3, 1);
    assert Deliverable(s, 3, 1) && InBucketOf(TWO, 3, 1);
    assert !Complete(TWO, s, 1, 1);
    assert Closable(TWO, s, 0);
  }

  lemma LeasedFetch(s: Store, t: Store, now: int, duration: int, r: Option<Message>)
    requires OnlyRow3(s) && s.reader <= 1 && !Deliverable(s, 3, now) && Fetched(TWO, s, t, now, duration, r)
    ensures r == None && t.rows == s.rows && t.counter == 4 && t.invis == -1 && t.reader >= 2
  {
    FetchIsMarkHere(s, t, now, duration, r);
    assert Closable(TWO, s, 0) && Closable(TWO, s, 1);
  }

  lemma LateFetch(s: Store, t: Store, now: int, duration: int, r: Option<Message>)
    requires OnlyRow3(s) && s.reader >= 2 && Fetched(TWO, s, t, now, duration, r)
    ensures r == None && t.rows == s.rows
  {
    FetchIsMarkHere(s, t, now, duration, r);
    InBucket(2, 3, 1);
  }

  // Indexes 0, 1 and 2 are given away and never written.
  method PutMessage3() returns (q: Queue)
    ensures fresh(q) && q.Valid() && q.config == TWO && q.now == 0 && q.reader == 0
    ensures OnlyRow3(q.View()) && q.View().rows[3] == NewRow("payload", "tag", 0)
  {
    q := new Queue(TWO, 0);
    var a := q.Abandon();
    a := q.Abandon();
    a := q.Abandon();
    var i := q.Enqueue("payload", "tag", 0);
  }

  // Message 3 is delivered under a lease of 10 ms at time 1.
  method LeaseMessage3() returns (q: Queue)
    ensures fresh(q) && q.Valid() && q.config == TWO && q.now == 1
    ensures OnlyRow3(q.View()) && q.View().rows[3] == Row("payload", "tag", 2, false, 11, 1) && q.reader <= 1
  {
    q := PutMessage3();
    q.Tick(1);
    ghost var s := q.View();
    var r := q.NextMessage(10);
    FirstFetch(s, q.View(), 10, r);
  }

  // With two messages to a bucket, message 3 is delivered, the reader moves on while the
  // lease runs, and once it has run out the message is deliverable again, yet the queue
  // answers that it has none.
  method ExpiredLeaseIsSkipped() returns (q: Queue, r: Option<Message>)
    ensures fresh(q) && q.Valid() && Deliverable(q.View(), 3, q.now) && r == None
  {
    q := LeaseMessage3();
    ghost var s := q.View();
    r := q.NextMessage(10);
    LeasedFetch(s, q.View(), 1, 10, r);
    q.Tick(20);
    s := q.View();
    r := q.NextMessage(10);
    LateFetch(s, q.View(), 21, 10, r);
  }
}
