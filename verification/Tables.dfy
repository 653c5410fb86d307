// The tables behind one queue and the conditional statements the repositories
// run against them.  Each statement is a pure function here; the concurrent
// machine (Machine.dfy) interleaves them and the sequential service
// (QueueService.dfy) executes them in place.

// Indices, buckets and the arithmetic that relates them.
module Buckets {
  // MonotonicIndex.toBucketPointer
  function BucketOf(bucketSize: int, index: int): (b: int)
    requires bucketSize >= 1 && index >= 0
    ensures b >= 0
  {
    index / bucketSize
  }

  // ReaderBucketPointer.startOf
  function StartOf(bucketSize: int, bucket: int): int {
    bucket * bucketSize
  }

  // InvisibilityMessagePointer.toBucketPointer: clamped at bucket 0
  function InvisBucket(bucketSize: int, pointer: int): (b: int)
    requires bucketSize >= 1
    ensures b >= 0
  {
    if pointer <= 0 then 0 else pointer / bucketSize
  }

  lemma StartOfNext(bucketSize: int, bucket: int)
    ensures StartOf(bucketSize, bucket + 1) == StartOf(bucketSize, bucket) + bucketSize
  {
  }

  lemma StartOfMonotone(bucketSize: int, a: int, b: int)
    requires bucketSize >= 1 && a <= b
    ensures StartOf(bucketSize, a) <= StartOf(bucketSize, b)
    ensures a < b ==> StartOf(bucketSize, a) + bucketSize <= StartOf(bucketSize, b)
    decreases b - a
  {
    if a < b {
      StartOfMonotone(bucketSize, a, b - 1);
      StartOfNext(bucketSize, b - 1);
    }
  }

  // An index lies in bucket b exactly when it falls in the b-th block of
  // bucketSize consecutive indices.
  lemma InBucket(bucketSize: int, index: int, b: int)
    requires bucketSize >= 1 && index >= 0
    ensures BucketOf(bucketSize, index) == b
       <==> StartOf(bucketSize, b) <= index < StartOf(bucketSize, b + 1)
  {
    var q := BucketOf(bucketSize, index);
    assert index == q * bucketSize + index % bucketSize;
    StartOfNext(bucketSize, q);
    StartOfNext(bucketSize, b);
    if q < b {
      StartOfMonotone(bucketSize, q, b);
    } else if b < q {
      StartOfMonotone(bucketSize, b, q);
    }
  }

  // Comparing buckets is comparing with block boundaries.
  lemma BeforeBucket(bucketSize: int, index: int, b: int)
    requires bucketSize >= 1 && index >= 0
    ensures BucketOf(bucketSize, index) < b <==> index < StartOf(bucketSize, b)
  {
    var q := BucketOf(bucketSize, index);
    InBucket(bucketSize, index, q);
    if q < b {
      StartOfMonotone(bucketSize, q + 1, b);
    } else {
      StartOfMonotone(bucketSize, b, q);
    }
  }
}

module Tables {
  import opened Wrappers
  import opened Buckets

  // One row of the message table.
  datatype Row = Row(
    blob: string, tag: string, version: int, acked: bool, nextVisible: int, deliveryCount: int)
  {
    // Message.isVisible: strictly before the clock reading
    predicate Visible(now: int) { nextVisible < now }
  }

  // A row together with its index: what Message.fromRow yields.
  datatype Message = Message(index: int, row: Row)

  // The rows of the message table by index, its tombstone rows by bucket, the
  // monoton row and the three pointer rows.
  datatype Store = Store(
    counter: int, reader: int, repair: int, invis: int, rows: map<int, Row>, tombs: map<int, int>)

  const EMPTY_STORE := Store(0, 0, 0, -1, map[], map[])

  // MonotonicRepoImpl.incrementMonotonicValue
  function IncrementMonoton(s: Store, current: int): Store {
    if s.counter == current then s.(counter := current + 1) else s
  }

  function NewRow(blob: string, tag: string, nextVisible: int): Row {
    Row(blob, tag, 1, false, nextVisible, 0)
  }

  // MessageRepositoryImpl.putMessage: insert if not exists
  function Put(s: Store, index: int, row: Row): Store {
    if index in s.rows then s else s.(rows := s.rows[index := row])
  }

  // MessageRepositoryImpl.consumeMessage
  predicate Consumable(s: Store, m: Message) {
    m.index in s.rows && s.rows[m.index].version == m.row.version && !s.rows[m.index].acked
  }

  function ConsumedRow(current: Row, seen: Row, nextVisible: int): Row {
    current.(nextVisible := nextVisible, version := seen.version + 1, deliveryCount := seen.deliveryCount + 1)
  }

  function Consume(s: Store, m: Message, nextVisible: int): Store {
    if Consumable(s, m)
    then s.(rows := s.rows[m.index := ConsumedRow(s.rows[m.index], m.row, nextVisible)])
    else s
  }

  // MessageRepositoryImpl.ackMessage: guarded by the version only
  predicate Ackable(s: Store, m: Message) {
    m.index in s.rows && s.rows[m.index].version == m.row.version
  }

  function AckedRow(current: Row, seen: Row): Row {
    current.(acked := true, version := seen.version + 1)
  }

  function Ack(s: Store, m: Message): Store {
    if Ackable(s, m)
    then s.(rows := s.rows[m.index := AckedRow(s.rows[m.index], m.row)])
    else s
  }

  // MessageRepositoryImpl.tombstone: insert if not exists
  function Tombstone(s: Store, bucket: int, now: int): Store {
    if bucket in s.tombs then s else s.(tombs := s.tombs[bucket := now])
  }

  // PointerRepositoryImpl.movePointer, one function per pointer and clause
  function AdvanceReader(s: Store, original: int): Store {
    if s.reader == original then s.(reader := original + 1) else s
  }

  function AdvanceRepair(s: Store, original: int): Store {
    if s.repair == original then s.(repair := original + 1) else s
  }

  function LowerInvis(s: Store, destination: int): Store {
    if s.invis > destination then s.(invis := destination) else s
  }

  function MoveInvis(s: Store, original: int, destination: int): Store {
    if s.invis == original then s.(invis := destination) else s
  }

  // MessageRepositoryImpl.getMessage
  function GetMessage(s: Store, index: int): Option<Message> {
    if index in s.rows then Some(Message(index, s.rows[index])) else None
  }

  // MessageRepository.getMessages: the bucket's rows in index order, without its tombstone
  function GetMessages(s: Store, bucketSize: int, bucket: int): seq<Message> {
    Collect(s.rows, StartOf(bucketSize, bucket), StartOf(bucketSize, bucket + 1))
  }

  function Collect(rows: map<int, Row>, lo: int, hi: int): seq<Message>
    decreases hi - lo
  {
    if lo >= hi then []
    else (if lo in rows then [Message(lo, rows[lo])] else []) + Collect(rows, lo + 1, hi)
  }

  // A scan is as long as its range exactly when every index in it is written.
  lemma {:induction false} CollectIsFull(rows: map<int, Row>, lo: int, hi: int)
    requires lo <= hi
    ensures |Collect(rows, lo, hi)| <= hi - lo
    ensures |Collect(rows, lo, hi)| == hi - lo <==> forall i :: lo <= i < hi ==> i in rows
    decreases hi - lo
  {
    if lo < hi { CollectIsFull(rows, lo + 1, hi); }
  }

  lemma {:induction false} CollectIsInRange(rows: map<int, Row>, lo: int, hi: int)
    ensures forall k :: 0 <= k < |Collect(rows, lo, hi)| ==>
      var m := Collect(rows, lo, hi)[k];
      lo <= m.index < hi && m.index in rows && rows[m.index] == m.row
    decreases hi - lo
  {
    if lo < hi { CollectIsInRange(rows, lo + 1, hi); }
  }

  lemma {:induction false} CollectAscends(rows: map<int, Row>, lo: int, hi: int)
    ensures forall j, k :: 0 <= j < k < |Collect(rows, lo, hi)| ==>
      Collect(rows, lo, hi)[j].index < Collect(rows, lo, hi)[k].index
    decreases hi - lo
  {
    if lo < hi {
      CollectAscends(rows, lo + 1, hi);
      CollectIsInRange(rows, lo + 1, hi);
    }
  }

  lemma {:induction false} CollectHolds(rows: map<int, Row>, lo: int, hi: int, i: int)
    requires lo <= i < hi && i in rows
    ensures Message(i, rows[i]) in Collect(rows, lo, hi)
    decreases hi - lo
  {
    if lo < i { CollectHolds(rows, lo + 1, hi, i); }
  }

  // A scan returns each row of its range once, in ascending index order and nothing else.
  lemma CollectIsScan(rows: map<int, Row>, lo: int, hi: int)
    requires lo <= hi
    ensures forall k :: 0 <= k < |Collect(rows, lo, hi)| ==>
      var m := Collect(rows, lo, hi)[k];
      lo <= m.index < hi && m.index in rows && rows[m.index] == m.row
    ensures forall j, k :: 0 <= j < k < |Collect(rows, lo, hi)| ==>
      Collect(rows, lo, hi)[j].index < Collect(rows, lo, hi)[k].index
    ensures forall i :: lo <= i < hi && i in rows ==> Message(i, rows[i]) in Collect(rows, lo, hi)
  {
    CollectIsInRange(rows, lo, hi);
    CollectAscends(rows, lo, hi);
    forall i | lo <= i < hi && i in rows ensures Message(i, rows[i]) in Collect(rows, lo, hi) {
      CollectHolds(rows, lo, hi, i);
    }
  }

  // getMessages: exactly the bucket's rows, ascending; full exactly when every index
  // of the bucket is written.
  lemma GetMessagesIsBucket(s: Store, bucketSize: int, bucket: int)
    requires bucketSize >= 1 && bucket >= 0
    requires forall i :: i in s.rows ==> i >= 0
    ensures forall m :: m in GetMessages(s, bucketSize, bucket) <==>
      m.index in s.rows && s.rows[m.index] == m.row && BucketOf(bucketSize, m.index) == bucket
    ensures forall j, k :: 0 <= j < k < |GetMessages(s, bucketSize, bucket)| ==>
      GetMessages(s, bucketSize, bucket)[j].index < GetMessages(s, bucketSize, bucket)[k].index
    ensures |GetMessages(s, bucketSize, bucket)| == bucketSize <==>
      forall i :: StartOf(bucketSize, bucket) <= i < StartOf(bucketSize, bucket + 1) ==> i in s.rows
  {
    var lo, hi := StartOf(bucketSize, bucket), StartOf(bucketSize, bucket + 1);
    StartOfNext(bucketSize, bucket);
    CollectIsScan(s.rows, lo, hi);
    CollectIsFull(s.rows, lo, hi);
    forall m ensures m in Collect(s.rows, lo, hi) <==>
      m.index in s.rows && s.rows[m.index] == m.row && BucketOf(bucketSize, m.index) == bucket
    {
      if m.index in s.rows {
        InBucket(bucketSize, m.index, bucket);
      }
    }
  }
}
