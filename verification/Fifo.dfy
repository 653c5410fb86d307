// First in, first out.  With one client, no initial invisibility and every delivery acked
// before the next read, the buckets, pointers and tombstones implement a plain queue of
// payloads: the unacked rows in index order.
module Fifo {
  import opened Wrappers
  import opened Buckets
  import opened Tables
  import opened Machine
  import opened ServiceSpec

  // The payloads of the unacked rows below index n, oldest first.
  function Pending(rows: map<int, Row>, n: int): seq<string>
    decreases n
  {
    if n <= 0 then []
    else Pending(rows, n - 1) + if n - 1 in rows && !rows[n - 1].acked then [rows[n - 1].blob] else []
  }

  function Contents(s: Store): seq<string> { Pending(s.rows, s.counter) }

  // Between operations nothing is out for delivery, and the reader has left only acked
  // rows behind.
  ghost predicate FifoOk(config: Config, s: Store) {
    && StoreOk(config, s)
    && (forall i :: i in s.rows ==> s.rows[i].acked || s.rows[i].deliveryCount == 0)
    && (forall i :: i in s.rows && BucketOf(config.bucketSize, i) < s.reader ==> s.rows[i].acked)
    && s.counter >= StartOf(config.bucketSize, s.reader)
  }

  // The clock is strictly past every put.
  ghost predicate AllVisible(s: Store, now: int) {
    forall i :: i in s.rows && !s.rows[i].acked ==> s.rows[i].Visible(now)
  }

  ghost predicate Oldest(s: Store, i: int) {
    && i in s.rows && !s.rows[i].acked
    && forall j :: j in s.rows && !s.rows[j].acked ==> i <= j
  }

  lemma {:induction false} PendingIgnoresAbove(rows: map<int, Row>, i: int, row: Row, n: int)
    requires n <= i
    ensures Pending(rows[i := row], n) == Pending(rows, n)
    decreases n
  {
    if n > 0 { PendingIgnoresAbove(rows, i, row, n - 1); }
  }

  // A put at the counter appends its payload.
  lemma PutAppends(rows: map<int, Row>, n: int, row: Row)
    requires n >= 0 && !row.acked
    ensures Pending(rows[n := row], n + 1) == Pending(rows, n) + [row.blob]
  {
    PendingIgnoresAbove(rows, n, row, n);
  }

  lemma {:induction false} NothingPending(rows: map<int, Row>, n: int)
    requires forall j :: j in rows && j < n ==> rows[j].acked
    ensures Pending(rows, n) == []
    decreases n
  {
    if n > 0 { NothingPending(rows, n - 1); }
  }

  // Acking the oldest unacked row removes the first payload and no other.
  lemma {:induction false} AckDropsFirst(rows: map<int, Row>, i: int, row: Row, n: int)
    requires i in rows && !rows[i].acked && row.acked && 0 <= i < n
    requires forall j :: j in rows && j < i ==> rows[j].acked
    ensures Pending(rows, n) == [rows[i].blob] + Pending(rows[i := row], n)
    decreases n
  {
    if n == i + 1 {
      NothingPending(rows, i);
      PendingIgnoresAbove(rows, i, row, i);
    } else {
      AckDropsFirst(rows, i, row, n - 1);
    }
  }

  // A bucket that is complete in a ready queue holds only acked rows.
  lemma CompleteIsAcked(config: Config, s: Store, b: int, now: int)
    requires AllVisible(s, now) && Complete(config, s, b, now)
    ensures forall i :: i in s.rows && InBucketOf(config, i, b) ==> s.rows[i].acked
  {
    forall i | i in s.rows && InBucketOf(config, i, b) ensures s.rows[i].acked {
      assert !Deliverable(s, i, now);
    }
  }

  // In a ready queue the invisibility scan finds nothing and moves nothing.
  lemma ScanIsIdle(config: Config, s: Store, t: Store, p: int, now: int, duration: int, r: Option<Message>)
    requires FifoOk(config, s) && AllVisible(s, now) && Scanned(config, s, t, p, now, duration, r)
    ensures r == None && t == s
  {
  }

  // So nextMessage is getAndMark.
  lemma FetchIsMark(config: Config, s: Store, t: Store, now: int, duration: int, r: Option<Message>)
    requires FifoOk(config, s) && AllVisible(s, now) && Fetched(config, s, t, now, duration, r)
    ensures Marked(config, s, t, now, duration, r)
  {
    if mid: Store :| Scanned(config, s, mid, s.invis, now, duration, None) && Marked(config, mid, t, now, duration, r) {
      ScanIsIdle(config, s, mid, s.invis, now, duration, None);
    } else {
      ScanIsIdle(config, s, t, s.invis, now, duration, r);
    }
  }

  lemma PassedBucketsAcked(config: Config, s: Store, t: Store, now: int, duration: int, r: Option<Message>)
    requires FifoOk(config, s) && AllVisible(s, now) && Marked(config, s, t, now, duration, r)
    ensures forall i :: i in s.rows && BucketOf(config.bucketSize, i) < t.reader ==> s.rows[i].acked
  {
    forall i | i in s.rows && BucketOf(config.bucketSize, i) < t.reader ensures s.rows[i].acked {
      var b := BucketOf(config.bucketSize, i);
      if b >= s.reader {
        assert Complete(config, s, b, now);
        CompleteIsAcked(config, s, b, now);
        assert InBucketOf(config, i, b);
      }
    }
  }

  // The message getAndMark delivers is the oldest unacked one.
  lemma DeliversOldest(config: Config, s: Store, t: Store, now: int, duration: int, m: Message)
    requires FifoOk(config, s) && AllVisible(s, now) && Marked(config, s, t, now, duration, Some(m))
    ensures Oldest(s, m.index)
  {
    PassedBucketsAcked(config, s, t, now, duration, Some(m));
    forall j | j in s.rows && !s.rows[j].acked ensures m.index <= j {
      var b := BucketOf(config.bucketSize, j);
      if b == t.reader {
        assert InBucketOf(config, j, t.reader) && Deliverable(s, j, now);
      } else {
        InBucket(config.bucketSize, m.index, t.reader);
        InBucket(config.bucketSize, j, b);
        StartOfMonotone(config.bucketSize, t.reader + 1, b);
      }
    }
  }

  // getAndMark comes back empty only from an empty queue.
  lemma EmptyMeansEmpty(config: Config, s: Store, t: Store, now: int, duration: int)
    requires FifoOk(config, s) && AllVisible(s, now) && Marked(config, s, t, now, duration, None)
    ensures Contents(s) == []
  {
    PassedBucketsAcked(config, s, t, now, duration, None);
    CompleteIsAcked(config, s, t.reader, now);
    forall j | j in s.rows && j < s.counter ensures s.rows[j].acked {
      var b := BucketOf(config.bucketSize, j);
      if b > t.reader {
        BeforeBucket(config.bucketSize, s.counter, t.reader + 1);
        InBucket(config.bucketSize, j, b);
        StartOfMonotone(config.bucketSize, t.reader + 1, b);
      } else if b == t.reader {
        assert InBucketOf(config, j, t.reader);
      }
    }
    NothingPending(s.rows, s.counter);
  }

  // Delivering and acking the oldest row leaves the rest of the queue.
  lemma DeliveryRestores(config: Config, s: Store, t: Store, u: Store, now: int, duration: int, m: Message)
    requires FifoOk(config, s) && AllVisible(s, now) && Marked(config, s, t, now, duration, Some(m))
    requires StoreOk(config, u) && u == Ack(t, Message(m.index, t.rows[m.index]))
    requires m.index in t.rows
    ensures FifoOk(config, u)
    ensures Contents(s) == [s.rows[m.index].blob] + Contents(u)
  {
    DeliversOldest(config, s, t, now, duration, m);
    PassedBucketsAcked(config, s, t, now, duration, Some(m));
    var i := m.index;
    assert u.rows == s.rows[i := u.rows[i]];
    AckDropsFirst(s.rows, i, u.rows[i], s.counter);
    ReaderStaysBehind(config, s, t, now, duration, Some(m));
  }

  lemma ReaderStaysBehind(config: Config, s: Store, t: Store, now: int, duration: int, r: Option<Message>)
    requires FifoOk(config, s) && Marked(config, s, t, now, duration, r)
    ensures t.counter >= StartOf(config.bucketSize, t.reader)
  {
    if t.reader > s.reader {
      assert Complete(config, s, t.reader - 1, now) && Closable(config, s, t.reader - 1);
      ClosableIsBehind(config, s, t.reader - 1);
    }
  }

  // A freshly allocated index never falls behind the reader.
  lemma NewIndexIsAhead(config: Config, s: Store)
    ensures FifoOk(config, s) ==> BucketOf(config.bucketSize, s.counter) >= s.reader
  {
    if FifoOk(config, s) { BeforeBucket(config.bucketSize, s.counter, s.reader); }
  }
}
