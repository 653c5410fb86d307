// The queue with one client at a time: the same statements run in place against the
// tables, as the repositories, the reader and the repair worker run them when nobody
// interferes.
module ServiceSpec {
  import opened Wrappers
  import opened Buckets
  import opened Tables
  import opened Machine

  // What createQueue establishes and every operation keeps.
  ghost predicate StoreOk(config: Config, s: Store) {
    && s.counter >= 0 && s.reader >= 0 && s.repair >= 0
    && (forall i :: i in s.rows ==> 0 <= i < s.counter && s.rows[i].deliveryCount >= 0)
    && (forall b :: b in s.tombs ==> 0 <= b <= s.reader && StartOf(config.bucketSize, b + 1) <= s.counter)
  }

  predicate InBucketOf(config: Config, i: int, b: int) {
    i >= 0 && BucketOf(config.bucketSize, i) == b
  }

  predicate Deliverable(s: Store, i: int, now: int) {
    i in s.rows && !s.rows[i].acked && s.rows[i].Visible(now)
  }

  // Out for delivery: delivered, not acked, lease still running.
  predicate Leased(s: Store, i: int, now: int) {
    i in s.rows && !s.rows[i].acked && !s.rows[i].Visible(now) && s.rows[i].deliveryCount > 0
  }

  ghost predicate Complete(config: Config, s: Store, b: int, now: int) {
    forall i :: i in s.rows && InBucketOf(config, i, b) ==> !Deliverable(s, i, now)
  }

  // A complete bucket may be closed when it is full or the counter has left it.
  ghost predicate Closable(config: Config, s: Store, b: int) {
    || (forall i :: StartOf(config.bucketSize, b) <= i < StartOf(config.bucketSize, b + 1) ==> i in s.rows)
    || (s.counter >= 0 && BucketOf(config.bucketSize, s.counter) > b)
  }

  ghost predicate FirstDeliverable(config: Config, s: Store, b: int, now: int, i: int) {
    && InBucketOf(config, i, b) && Deliverable(s, i, now)
    && forall j :: InBucketOf(config, j, b) && Deliverable(s, j, now) ==> i <= j
  }

  // A complete bucket: no message of the scan is deliverable.
  lemma CompleteScan(config: Config, s: Store, b: int, now: int, messages: seq<Message>)
    requires IsScan(config, s, b, messages)
    requires forall j :: 0 <= j < |messages| ==> messages[j].row.acked || !messages[j].row.Visible(now)
    ensures Complete(config, s, b, now)
  {
    forall i | i in s.rows && InBucketOf(config, i, b) ensures !Deliverable(s, i, now) {
      var m := Message(i, s.rows[i]);
      assert m in messages;
      var j :| 0 <= j < |messages| && messages[j] == m;
    }
  }

  lemma FirstDeliverableOfScan(config: Config, s: Store, b: int, now: int, messages: seq<Message>, k: nat)
    requires IsScan(config, s, b, messages) && k < |messages|
    requires !messages[k].row.acked && messages[k].row.Visible(now)
    requires forall j :: 0 <= j < k ==> messages[j].row.acked || !messages[j].row.Visible(now)
    ensures FirstDeliverable(config, s, b, now, messages[k].index)
    ensures messages[k] == Message(messages[k].index, s.rows[messages[k].index])
  {
    assert messages[k] in messages;
    forall i | InBucketOf(config, i, b) && Deliverable(s, i, now) ensures messages[k].index <= i {
      var m := Message(i, s.rows[i]);
      assert m in messages;
      var j :| 0 <= j < |messages| && messages[j] == m;
    }
  }

  // The guard of a tombstone is Closable.
  lemma ClosableIffFullOrPast(config: Config, s: Store, b: int)
    requires StoreOk(config, s) && b >= 0
    ensures Closable(config, s, b)
       <==> |GetMessages(s, config.bucketSize, b)| == config.bucketSize
            || StartOf(config.bucketSize, b + 1) <= s.counter
  {
    ScanIsBucket(config, s, b);
    BeforeBucket(config.bucketSize, s.counter, b + 1);
  }

  // A closable bucket lies strictly below the counter's bucket.
  lemma ClosableIsBehind(config: Config, s: Store, b: int)
    requires StoreOk(config, s) && b >= 0 && Closable(config, s, b)
    ensures StartOf(config.bucketSize, b + 1) <= s.counter
    ensures BucketOf(config.bucketSize, s.counter) > b
    ensures Remaining(config, s, b + 1) < Remaining(config, s, b)
  {
    var bs := config.bucketSize;
    StartOfNext(bs, b);
    if BucketOf(bs, s.counter) <= b {
      assert StartOf(bs, b + 1) - 1 in s.rows;
    }
    BeforeBucket(bs, s.counter, b + 1);
  }

  ghost predicate FirstLeased(config: Config, s: Store, b: int, now: int, i: int) {
    && InBucketOf(config, i, b) && Leased(s, i, now)
    && forall j :: InBucketOf(config, j, b) && Leased(s, j, now) ==> i <= j
  }

  // One delivery of message m: its row's lease, version and count are bumped together,
  // nothing else in the table changes, and the client gets the row as it was read with
  // the new version.
  ghost predicate DeliveredOnce(s: Store, t: Store, now: int, duration: int, m: Message) {
    && Deliverable(s, m.index, now)
    && t.rows == s.rows[m.index := ConsumedRow(s.rows[m.index], s.rows[m.index], now + duration)]
    && m.row == s.rows[m.index].(version := s.rows[m.index].version + 1)
  }

  // What getAndMark does to the store when it starts at the reader's bucket.
  ghost predicate Marked(config: Config, s: Store, t: Store, now: int, duration: int, r: Option<Message>) {
    && t.counter == s.counter && t.repair == s.repair && t.invis == s.invis && s.reader <= t.reader
    && (forall b :: s.reader <= b < t.reader ==> Complete(config, s, b, now) && Closable(config, s, b))
    && (forall b :: b in s.tombs ==> b in t.tombs && t.tombs[b] == s.tombs[b])
    && (forall b :: s.reader <= b < t.reader ==> b in t.tombs)
    && (forall b :: b in t.tombs && b !in s.tombs ==> s.reader <= b < t.reader && t.tombs[b] == now)
    && match r
       case None => t.rows == s.rows && Complete(config, s, t.reader, now) && !Closable(config, s, t.reader)
       case Some(m) => DeliveredOnce(s, t, now, duration, m) && FirstDeliverable(config, s, t.reader, now, m.index)
  }

  lemma MarkedNothing(config: Config, s: Store, now: int, duration: int)
    requires Complete(config, s, s.reader, now) && !Closable(config, s, s.reader)
    ensures Marked(config, s, s, now, duration, None)
  {
  }

  // Delivering the first visible message of the reader's bucket is what getAndMark does.
  lemma MarkedDelivery(config: Config, s: Store, now: int, duration: int, k: nat)
    requires StoreOk(config, s)
    requires var messages := GetMessages(s, config.bucketSize, s.reader);
      && k < |messages| && !messages[k].row.acked && messages[k].row.Visible(now)
      && forall j :: 0 <= j < k ==> messages[j].row.acked || !messages[j].row.Visible(now)
    ensures var m := GetMessages(s, config.bucketSize, s.reader)[k];
      && Consumable(s, m)
      && Marked(config, s, Consume(s, m, now + duration), now, duration,
                Some(m.(row := m.row.(version := m.row.version + 1))))
  {
    var messages := GetMessages(s, config.bucketSize, s.reader);
    ScanIsBucket(config, s, s.reader);
    FirstDeliverableOfScan(config, s, s.reader, now, messages, k);
  }

  // A scan with nothing visible: the bucket is complete, and the guard of the tombstone
  // is Closable.
  lemma NothingToDeliver(config: Config, s: Store, b: int, now: int)
    requires StoreOk(config, s) && b >= 0
    requires forall m :: m in GetMessages(s, config.bucketSize, b) ==> m.row.acked || !m.row.Visible(now)
    ensures Complete(config, s, b, now)
    ensures Closable(config, s, b)
       <==> |GetMessages(s, config.bucketSize, b)| == config.bucketSize
            || StartOf(config.bucketSize, b + 1) <= s.counter
  {
    ScanIsBucket(config, s, b);
    CompleteScan(config, s, b, now, GetMessages(s, config.bucketSize, b));
    ClosableIffFullOrPast(config, s, b);
  }

  predicate Left(s: Store, p: int) {
    p !in s.rows || (s.rows[p].acked && s.rows[p].deliveryCount > 0)
  }

  // Closing one complete bucket and going on from the next is still getAndMark.
  lemma MarkedOneMore(config: Config, s: Store, mid: Store, t: Store, now: int, duration: int, r: Option<Message>)
    requires Complete(config, s, s.reader, now) && Closable(config, s, s.reader)
    requires mid == AdvanceReader(Tombstone(s, s.reader, now), s.reader)
    requires Marked(config, mid, t, now, duration, r)
    ensures Marked(config, s, t, now, duration, r)
  {
    forall b | s.reader <= b < t.reader ensures Complete(config, s, b, now) && Closable(config, s, b) {
      if b > s.reader {
        assert Complete(config, mid, b, now);
        SameRowsSameScan(config, s, mid, b, now);
      }
    }
    SameRowsSameScan(config, s, mid, t.reader, now);
  }

  lemma SameRowsSameScan(config: Config, s: Store, mid: Store, b: int, now: int)
    requires s.rows == mid.rows && s.counter == mid.counter
    ensures Complete(config, s, b, now) <==> Complete(config, mid, b, now)
    ensures Closable(config, s, b) <==> Closable(config, mid, b)
    ensures forall i :: FirstDeliverable(config, mid, b, now, i) ==> FirstDeliverable(config, s, b, now, i)
  {
    if Complete(config, s, b, now) {
      forall i | i in mid.rows && InBucketOf(config, i, b) ensures !Deliverable(mid, i, now) {
        assert !Deliverable(s, i, now);
      }
    }
    if Complete(config, mid, b, now) {
      forall i | i in s.rows && InBucketOf(config, i, b) ensures !Deliverable(s, i, now) {
        assert !Deliverable(mid, i, now);
      }
    }
    forall i, j | FirstDeliverable(config, mid, b, now, i) && InBucketOf(config, j, b) && Deliverable(s, j, now)
      ensures i <= j
    {
      assert Deliverable(mid, j, now);
    }
  }

  // The scan goes on to the next bucket: it leaves an absent or acked message and the
  // bucket has rows but none out for delivery.
  ghost predicate Passes(config: Config, s: Store, now: int, p: int) {
    && Left(s, p)
    && (exists i :: i in s.rows && InBucketOf(config, i, InvisBucket(config.bucketSize, p)))
    && (forall i :: InBucketOf(config, i, InvisBucket(config.bucketSize, p)) ==> !Leased(s, i, now))
  }

  // The scan that starts at pointer p comes to look at message i.
  ghost predicate Reaches(config: Config, s: Store, now: int, p: int, i: int)
    decreases Remaining(config, s, InvisBucket(config.bucketSize, p))
  {
    || p == i
    || (&& StoreOk(config, s) && Passes(config, s, now, p)
        && (NextBucketRemains(config, s, p); Reaches(config, s, now, NextBucketStart(config, p), i)))
  }

  // Apart from the message it starts at, a scan only ever looks at first messages of
  // buckets.
  lemma {:induction false} ReachesOnlyStarts(config: Config, s: Store, now: int, p: int, i: int)
    requires Reaches(config, s, now, p, i) && i != p
    ensures exists b :: b >= 1 && i == StartOf(config.bucketSize, b)
    decreases Remaining(config, s, InvisBucket(config.bucketSize, p))
  {
    NextBucketRemains(config, s, p);
    var next := NextBucketStart(config, p);
    if next == i {
      assert i == StartOf(config.bucketSize, InvisBucket(config.bucketSize, p) + 1);
    } else {
      ReachesOnlyStarts(config, s, now, next, i);
    }
  }

  ghost predicate ParksFrom(config: Config, s: Store, t: Store, now: int, p: int, q: int) {
    && Reaches(config, s, now, p, q) && Left(s, q)
    && FirstLeased(config, s, InvisBucket(config.bucketSize, q), now, t.invis)
    && t == MoveInvis(LowerInvis(s, t.invis), q, t.invis)
  }

  // What the invisibility scan does when it starts at pointer p.
  ghost predicate Scanned(config: Config, s: Store, t: Store, p: int, now: int, duration: int, r: Option<Message>) {
    && t.(rows := s.rows, invis := s.invis) == s
    && (match r
        case None => t.rows == s.rows
        case Some(m) =>
          t.invis == s.invis && DeliveredOnce(s, t, now, duration, m) && s.rows[m.index].deliveryCount > 0)
    // exactly the expired lease the scan comes to is redelivered
    && (r.Some? ==> Reaches(config, s, now, p, r.value.index))
    && (forall i :: Deliverable(s, i, now) && s.rows[i].deliveryCount > 0 && Reaches(config, s, now, p, i)
          ==> r.Some? && r.value.index == i)
    // it has not been delivered yet, or is still out: the pointer waits for it
    && (p in s.rows && (s.rows[p].deliveryCount == 0 || Leased(s, p, now)) ==> t == s && r == None)
    // the pointer only moves onto the first message out for delivery in a bucket the scan
    // comes to, and only by a compare-and-set from where the scan stands
    && (t.invis != s.invis ==> r == None && exists q :: ParksFrom(config, s, t, now, p, q))
    // an absent or acked message is left: the scan parks on the first message of the
    // pointer's bucket that is out for delivery
    && (Left(s, p) ==>
          forall i :: FirstLeased(config, s, InvisBucket(config.bucketSize, p), now, i) ==>
            t == MoveInvis(LowerInvis(s, i), p, i) && r == None)
  }

  // An empty bucket ends the scan.
  lemma ScannedEmpty(config: Config, s: Store, p: int, now: int, duration: int)
    requires StoreOk(config, s) && Left(s, p)
    requires forall i :: !(i in s.rows && InBucketOf(config, i, InvisBucket(config.bucketSize, p)))
    ensures Scanned(config, s, s, p, now, duration, None)
  {
  }

  // A message that is out for delivery ends the scan with the pointer moved onto it.
  lemma ScannedPark(config: Config, s: Store, p: int, now: int, duration: int, i: int)
    requires StoreOk(config, s) && Left(s, p)
    requires FirstLeased(config, s, InvisBucket(config.bucketSize, p), now, i)
    ensures Scanned(config, s, MoveInvis(LowerInvis(s, i), p, i), p, now, duration, None)
  {
    var t := MoveInvis(LowerInvis(s, i), p, i);
    if t.invis != s.invis { assert ParksFrom(config, s, t, now, p, p); }
  }

  // Otherwise the scan continues with the first message of the next bucket.
  lemma ScannedGoOn(config: Config, s: Store, t: Store, p: int, now: int, duration: int, r: Option<Message>)
    requires StoreOk(config, s) && Passes(config, s, now, p)
    requires Scanned(config, s, t, NextBucketStart(config, p), now, duration, r)
    ensures Scanned(config, s, t, p, now, duration, r)
  {
    assert forall i :: !FirstLeased(config, s, InvisBucket(config.bucketSize, p), now, i);
    if t.invis != s.invis {
      var q :| ParksFrom(config, s, t, now, NextBucketStart(config, p), q);
      assert ParksFrom(config, s, t, now, p, q);
    }
  }

  // What nextMessage does: the scan's redelivery, or else getAndMark's delivery.
  ghost predicate Fetched(config: Config, s: Store, t: Store, now: int, duration: int, r: Option<Message>) {
    || (r.Some? && Scanned(config, s, t, s.invis, now, duration, r))
    || (exists mid: Store ::
          Scanned(config, s, mid, s.invis, now, duration, None) && Marked(config, mid, t, now, duration, r))
  }

  ghost predicate IsScan(config: Config, s: Store, b: int, messages: seq<Message>) {
    && (forall m :: m in messages <==> m.index in s.rows && s.rows[m.index] == m.row && InBucketOf(config, m.index, b))
    && (forall j, k :: 0 <= j < k < |messages| ==> messages[j].index < messages[k].index)
  }

  lemma ScanIsBucket(config: Config, s: Store, b: int)
    requires StoreOk(config, s) && b >= 0
    ensures var messages := GetMessages(s, config.bucketSize, b);
      && IsScan(config, s, b, messages)
      && (|messages| > 0 ==> exists i :: i in s.rows && InBucketOf(config, i, b))
      && (|messages| == config.bucketSize <==>
            forall i :: StartOf(config.bucketSize, b) <= i < StartOf(config.bucketSize, b + 1) ==> i in s.rows)
  {
    var messages := GetMessages(s, config.bucketSize, b);
    GetMessagesIsBucket(s, config.bucketSize, b);
    if |messages| > 0 { assert messages[0] in messages; }
  }

  // The first leased message of a scan is the bucket's first leased message.
  lemma FirstOfScan(config: Config, s: Store, b: int, now: int, messages: seq<Message>, k: nat)
    requires IsScan(config, s, b, messages) && k < |messages| && Leased(s, messages[k].index, now)
    requires forall j :: 0 <= j < k ==> !Leased(s, messages[j].index, now)
    ensures forall i :: FirstLeased(config, s, b, now, i) <==> i == messages[k].index
  {
    assert messages[k] in messages;
    forall i | InBucketOf(config, i, b) && Leased(s, i, now) ensures messages[k].index <= i {
      var m := Message(i, s.rows[i]);
      assert m in messages;
      var j :| 0 <= j < |messages| && messages[j] == m;
    }
  }

  lemma NoneOfScan(config: Config, s: Store, b: int, now: int, messages: seq<Message>)
    requires IsScan(config, s, b, messages)
    requires forall j :: 0 <= j < |messages| ==> !Leased(s, messages[j].index, now)
    ensures forall i :: InBucketOf(config, i, b) ==> !Leased(s, i, now)
  {
    forall i | InBucketOf(config, i, b) ensures !Leased(s, i, now) {
      if i in s.rows {
        var m := Message(i, s.rows[i]);
        assert m in messages;
        var j :| 0 <= j < |messages| && messages[j] == m;
      }
    }
  }

  lemma NothingScanned(config: Config, s: Store, b: int, messages: seq<Message>)
    requires IsScan(config, s, b, messages) && |messages| == 0
    ensures forall i :: !(i in s.rows && InBucketOf(config, i, b))
  {
    forall i ensures !(i in s.rows && InBucketOf(config, i, b)) {
      if i in s.rows { assert Message(i, s.rows[i]) !in messages; }
    }
  }

  // The scan comes closer to the counter's bucket with every non-empty bucket it leaves.
  lemma NextBucketRemains(config: Config, s: Store, pointer: int)
    requires StoreOk(config, s)
    requires exists i :: i in s.rows && InBucketOf(config, i, InvisBucket(config.bucketSize, pointer))
    ensures Remaining(config, s, InvisBucket(config.bucketSize, NextBucketStart(config, pointer)))
          < Remaining(config, s, InvisBucket(config.bucketSize, pointer))
  {
    var bs, b := config.bucketSize, InvisBucket(config.bucketSize, pointer);
    var i :| i in s.rows && InBucketOf(config, i, b);
    InBucket(bs, i, b);
    BeforeBucket(bs, s.counter, b);
    StartOfNext(bs, b);
    StartOfMonotone(bs, 0, b);
    StartOfNext(bs, b + 1);
    InBucket(bs, StartOf(bs, b + 1), b + 1);
  }

  // ---- the repair worker ----

  // What the repairer republishes: unacked, visible, never delivered.
  predicate Due(row: Row, now: int) { !row.acked && row.Visible(now) && row.deliveryCount == 0 }

  function DueOf(messages: seq<Message>, now: int): seq<Message> {
    if |messages| == 0 then []
    else DueOf(messages[..|messages| - 1], now)
         + if Due(messages[|messages| - 1].row, now) then [messages[|messages| - 1]] else []
  }

  // Each due message has been acked and its payload inserted as a new row at the next
  // free index, in order; no other row has changed.
  ghost predicate Republished(s: Store, t: Store, now: int, tags: int -> string, due: seq<Message>) {
    && t.(rows := s.rows, counter := s.counter) == s
    && t.counter == s.counter + |due|
    && (forall i :: i in t.rows <==> i in s.rows || s.counter <= i < t.counter)
    && (forall k :: 0 <= k < |due| ==>
          && due[k].index in s.rows && s.rows[due[k].index] == due[k].row
          && t.rows[due[k].index] == AckedRow(due[k].row, due[k].row)
          && t.rows[s.counter + k] == NewRow(due[k].row.blob, tags(s.counter + k), now))
    && (forall i :: i in s.rows && (forall k :: 0 <= k < |due| ==> due[k].index != i) ==> t.rows[i] == s.rows[i])
  }

  lemma {:induction false} DueOfIsFilter(messages: seq<Message>, now: int)
    ensures forall k :: 0 <= k < |DueOf(messages, now)| ==>
      DueOf(messages, now)[k] in messages && Due(DueOf(messages, now)[k].row, now)
    ensures forall m :: m in messages && Due(m.row, now) ==> m in DueOf(messages, now)
  {
    if |messages| > 0 { DueOfIsFilter(messages[..|messages| - 1], now); }
  }

  // RepairWorkerImpl.republishMessage: the payload at a new index, the original acked.
  function RepublishRow(s: Store, m: Message, tag: string, now: int): Store {
    s.(counter := s.counter + 1,
       rows := s.rows[s.counter := NewRow(m.row.blob, tag, now)][m.index := AckedRow(m.row, m.row)])
  }

  // A whole pass: the due messages in order.
  function RepublishAll(s: Store, due: seq<Message>, tags: int -> string, now: int): Store {
    if |due| == 0 then s
    else var mid := RepublishAll(s, due[..|due| - 1], tags, now);
         RepublishRow(mid, due[|due| - 1], tags(mid.counter), now)
  }

  lemma RepublishAllStep(s: Store, due: seq<Message>, m: Message, tags: int -> string, now: int)
    ensures var mid := RepublishAll(s, due, tags, now);
      RepublishAll(s, due + [m], tags, now) == RepublishRow(mid, m, tags(mid.counter), now)
  {
    assert (due + [m])[..|due|] == due;
  }

  // Distinct messages as the table holds them.
  ghost predicate Snapshot(s: Store, due: seq<Message>) {
    && (forall k :: 0 <= k < |due| ==> due[k].index in s.rows && s.rows[due[k].index] == due[k].row)
    && (forall j, k :: 0 <= j < k < |due| ==> due[j].index != due[k].index)
  }

  lemma {:induction false} RepublishAllIsExact(s: Store, due: seq<Message>, tags: int -> string, now: int)
    requires Snapshot(s, due) && forall i :: i in s.rows ==> i < s.counter
    ensures Republished(s, RepublishAll(s, due, tags, now), now, tags, due)
  {
    if |due| > 0 {
      var before, m := due[..|due| - 1], due[|due| - 1];
      assert due == before + [m];
      RepublishAllIsExact(s, before, tags, now);
      var mid := RepublishAll(s, before, tags, now);
      RepublishOneMore(s, mid, RepublishRow(mid, m, tags(mid.counter), now), now, tags, before, m);
    }
  }

  // Every message republished so far is acked and has its copy.
  lemma RepublishedSoFar(s: Store, mid: Store, t: Store, now: int, tags: int -> string, due: seq<Message>, m: Message)
    requires Republished(s, mid, now, tags, due)
    requires forall i :: i in s.rows ==> i < s.counter
    requires m.index in s.rows && s.rows[m.index] == m.row && mid.rows[m.index] == m.row
    requires forall k :: 0 <= k < |due| ==> due[k].index != m.index
    requires t == RepublishRow(mid, m, tags(mid.counter), now)
    ensures forall k :: 0 <= k < |due + [m]| ==>
      var r := (due + [m])[k];
      && r.index in s.rows && s.rows[r.index] == r.row && r.index in t.rows && s.counter + k in t.rows
      && t.rows[r.index] == AckedRow(r.row, r.row)
      && t.rows[s.counter + k] == NewRow(r.row.blob, tags(s.counter + k), now)
  {
  }

  // The rows after one more republish.
  lemma RepublishOneMore(s: Store, mid: Store, t: Store, now: int, tags: int -> string, due: seq<Message>, m: Message)
    requires Republished(s, mid, now, tags, due)
    requires forall i :: i in s.rows ==> i < s.counter
    requires m.index in s.rows && s.rows[m.index] == m.row && mid.rows[m.index] == m.row
    requires forall k :: 0 <= k < |due| ==> due[k].index != m.index
    requires t == RepublishRow(mid, m, tags(mid.counter), now)
    ensures Republished(s, t, now, tags, due + [m])
  {
    RepublishedSoFar(s, mid, t, now, tags, due, m);
    OthersUntouched(s, mid, t, now, tags, due, m);
  }

  // No other row has changed, and there is one row more.
  lemma OthersUntouched(s: Store, mid: Store, t: Store, now: int, tags: int -> string, due: seq<Message>, m: Message)
    requires Republished(s, mid, now, tags, due)
    requires forall i :: i in s.rows ==> i < s.counter
    requires m.index in s.rows && t == RepublishRow(mid, m, tags(mid.counter), now)
    ensures forall i :: i in t.rows <==> i in s.rows || s.counter <= i < t.counter
    ensures forall i :: i in s.rows && (forall k :: 0 <= k < |due + [m]| ==> (due + [m])[k].index != i) ==>
      t.rows[i] == s.rows[i]
  {
    var d := due + [m];
    forall i | i in s.rows && (forall k :: 0 <= k < |d| ==> d[k].index != i) ensures t.rows[i] == s.rows[i] {
      assert d[|due|] == m;
      forall k | 0 <= k < |due| ensures due[k].index != i { assert d[k] == due[k]; }
    }
  }

  // The due rows of a scan are distinct and as the table holds them.
  lemma {:induction false} DueOfSnapshot(config: Config, s: Store, b: int, messages: seq<Message>, n: nat, now: int)
    requires IsScan(config, s, b, messages) && n <= |messages|
    ensures Snapshot(s, DueOf(messages[..n], now))
    ensures forall k :: 0 <= k < |DueOf(messages[..n], now)| ==>
      forall j :: n <= j < |messages| ==> DueOf(messages[..n], now)[k].index < messages[j].index
  {
    if n > 0 {
      DueOfSnapshot(config, s, b, messages, n - 1, now);
      DueOfStep(messages, n - 1, now);
      assert messages[n - 1] in messages;
      var before := DueOf(messages[..n - 1], now);
      if Due(messages[n - 1].row, now) { SnapshotOneMore(s, before, messages[n - 1]); }
    }
  }

  lemma SnapshotOneMore(s: Store, due: seq<Message>, m: Message)
    requires Snapshot(s, due) && m.index in s.rows && s.rows[m.index] == m.row
    requires forall k :: 0 <= k < |due| ==> due[k].index < m.index
    ensures Snapshot(s, due + [m])
  {
  }

  // One pass of the repairer over bucket b.
  function RepairedBucket(config: Config, s: Store, b: int, tags: int -> string, now: int): Store {
    RepublishAll(s, DueOf(GetMessages(s, config.bucketSize, b), now), tags, now)
  }

  lemma RepairedBucketIsExact(config: Config, s: Store, b: int, tags: int -> string, now: int)
    requires StoreOk(config, s) && b >= 0
    ensures Republished(s, RepairedBucket(config, s, b, tags, now), now, tags,
                        DueOf(GetMessages(s, config.bucketSize, b), now))
  {
    var messages := GetMessages(s, config.bucketSize, b);
    ScanIsBucket(config, s, b);
    DueOfSnapshot(config, s, b, messages, |messages|, now);
    assert messages[..|messages|] == messages;
    RepublishAllIsExact(s, DueOf(messages, now), tags, now);
  }

  // The repair guarantee of one pass, exactly: an undelivered message of the bucket is
  // left behind if and only if it was not visible when the pass looked at it.
  lemma LeftBehindIffInvisible(config: Config, s: Store, b: int, tags: int -> string, now: int, i: int)
    requires StoreOk(config, s) && b >= 0 && i in s.rows && InBucketOf(config, i, b)
    ensures var t := RepairedBucket(config, s, b, tags, now);
      && i in t.rows
      && (!t.rows[i].acked && t.rows[i].deliveryCount == 0
          <==> !s.rows[i].acked && s.rows[i].deliveryCount == 0 && !s.rows[i].Visible(now))
  {
    var due := DueOf(GetMessages(s, config.bucketSize, b), now);
    var t := RepairedBucket(config, s, b, tags, now);
    RepairedBucketIsExact(config, s, b, tags, now);
    DueIffListed(config, s, b, now, i);
    if Lists(due, i) {
      var k :| 0 <= k < |due| && due[k].index == i;
      assert t.rows[due[k].index] == AckedRow(due[k].row, due[k].row);
    }
  }

  ghost predicate Lists(messages: seq<Message>, i: int) {
    exists k :: 0 <= k < |messages| && messages[k].index == i
  }

  lemma DueIffListed(config: Config, s: Store, b: int, now: int, i: int)
    requires StoreOk(config, s) && b >= 0 && i in s.rows && InBucketOf(config, i, b)
    ensures Due(s.rows[i], now) <==> Lists(DueOf(GetMessages(s, config.bucketSize, b), now), i)
  {
    var messages := GetMessages(s, config.bucketSize, b);
    var due := DueOf(messages, now);
    ScanIsBucket(config, s, b);
    DueOfIsFilter(messages, now);
    if Due(s.rows[i], now) {
      var m := Message(i, s.rows[i]);
      assert m in messages;
      assert m in due;
      var k :| 0 <= k < |due| && due[k] == m;
    }
    if Lists(due, i) {
      var k :| 0 <= k < |due| && due[k].index == i;
      assert due[k] in messages;
    }
  }

  // The rows a pass over bucket b is for.
  ghost predicate Unsent(config: Config, s: Store, b: int, now: int, i: int) {
    && i in s.rows && i >= 0 && BucketOf(config.bucketSize, i) == b
    && !s.rows[i].acked && s.rows[i].nextVisible < now && s.rows[i].deliveryCount == 0
  }

  // A pass changes exactly the rows of its bucket that are unacked, visible and have never
  // been delivered, and adds as many rows as it changes.
  lemma PassChangesIff(config: Config, s: Store, b: int, tags: int -> string, now: int)
    requires StoreOk(config, s) && b >= 0
    ensures var t := RepairedBucket(config, s, b, tags, now);
      && s.rows.Keys <= t.rows.Keys
      && (forall i :: i in s.rows ==>
            (t.rows[i] != s.rows[i] <==>
              BucketOf(config.bucketSize, i) == b
              && !s.rows[i].acked && s.rows[i].nextVisible < now && s.rows[i].deliveryCount == 0))
      && (forall i :: i in t.rows && i !in s.rows <==> s.counter <= i < t.counter)
      && t.counter - s.counter == |set i | i in s.rows && t.rows[i] != s.rows[i]|
  {
    var t := RepairedBucket(config, s, b, tags, now);
    var due := DueOf(GetMessages(s, config.bucketSize, b), now);
    RepairedBucketIsExact(config, s, b, tags, now);
    ChangedIffUnsent(config, s, t, b, tags, now, due);
    CountChanged(config, s, t, b, tags, now, due);
  }

  lemma ChangedIffUnsent(config: Config, s: Store, t: Store, b: int, tags: int -> string, now: int, due: seq<Message>)
    requires StoreOk(config, s) && b >= 0 && due == DueOf(GetMessages(s, config.bucketSize, b), now)
    requires Republished(s, t, now, tags, due)
    ensures s.rows.Keys <= t.rows.Keys
    ensures forall i :: i in t.rows && i !in s.rows <==> s.counter <= i < t.counter
    ensures forall i :: i in s.rows ==> (t.rows[i] != s.rows[i] <==> Unsent(config, s, b, now, i))
  {
    forall i ensures i in t.rows && i !in s.rows <==> s.counter <= i < t.counter {
      assert i in t.rows <==> i in s.rows || s.counter <= i < t.counter;
    }
    forall i | i in s.rows ensures t.rows[i] != s.rows[i] <==> Unsent(config, s, b, now, i) {
      ListedIffUnsent(config, s, b, now, i);
      ChangedIffListed(s, t, now, tags, due, i);
    }
  }

  lemma CountChanged(config: Config, s: Store, t: Store, b: int, tags: int -> string, now: int, due: seq<Message>)
    requires StoreOk(config, s) && b >= 0 && due == DueOf(GetMessages(s, config.bucketSize, b), now)
    requires Republished(s, t, now, tags, due)
    ensures |set i | i in s.rows && t.rows[i] != s.rows[i]| == |due|
  {
    forall i | i in s.rows ensures t.rows[i] != s.rows[i] <==> Lists(due, i) {
      ListedIffUnsent(config, s, b, now, i);
      ChangedIffListed(s, t, now, tags, due, i);
    }
    DueIsSnapshot(config, s, b, now);
    CountIndices(s, due);
    assert (set i | i in s.rows && t.rows[i] != s.rows[i]) == (set i | i in s.rows && Lists(due, i));
  }

  lemma ChangedIffListed(s: Store, t: Store, now: int, tags: int -> string, due: seq<Message>, i: int)
    requires Republished(s, t, now, tags, due) && i in s.rows && (Lists(due, i) ==> !s.rows[i].acked)
    ensures t.rows[i] != s.rows[i] <==> Lists(due, i)
  {
    if Lists(due, i) {
      var k :| 0 <= k < |due| && due[k].index == i;
      assert t.rows[due[k].index] == AckedRow(due[k].row, due[k].row);
    }
  }

  lemma ListedIffUnsent(config: Config, s: Store, b: int, now: int, i: int)
    requires StoreOk(config, s) && b >= 0 && i in s.rows
    ensures Lists(DueOf(GetMessages(s, config.bucketSize, b), now), i) <==> Unsent(config, s, b, now, i)
  {
    var due := DueOf(GetMessages(s, config.bucketSize, b), now);
    if InBucketOf(config, i, b) {
      DueIffListed(config, s, b, now, i);
    } else if Lists(due, i) {
      var k :| 0 <= k < |due| && due[k].index == i;
      ScanIsBucket(config, s, b);
      DueOfIsFilter(GetMessages(s, config.bucketSize, b), now);
    }
  }

  lemma DueIsSnapshot(config: Config, s: Store, b: int, now: int)
    requires StoreOk(config, s) && b >= 0
    ensures Snapshot(s, DueOf(GetMessages(s, config.bucketSize, b), now))
  {
    var messages := GetMessages(s, config.bucketSize, b);
    ScanIsBucket(config, s, b);
    DueOfSnapshot(config, s, b, messages, |messages|, now);
    assert messages[..|messages|] == messages;
  }

  lemma {:induction false} CountIndices(s: Store, due: seq<Message>)
    requires Snapshot(s, due)
    ensures |set i | i in s.rows && Lists(due, i)| == |due|
  {
    var all := set i | i in s.rows && Lists(due, i);
    if |due| == 0 {
      assert all == {};
    } else {
      var n := |due| - 1;
      var before := set i | i in s.rows && Lists(due[..n], i);
      CountIndices(s, due[..n]);
      forall i | i in s.rows ensures Lists(due, i) <==> Lists(due[..n], i) || i == due[n].index {
        if Lists(due[..n], i) {
          var k :| 0 <= k < n && due[..n][k].index == i;
          assert due[k].index == i;
        }
        if Lists(due, i) && i != due[n].index {
          var k :| 0 <= k < |due| && due[k].index == i;
          assert due[..n][k].index == i;
        }
      }
      assert all == before + {due[n].index};
      assert due[n].index !in before;
    }
  }

  // No payload is lost in a pass: what is acked away has a fresh copy at a new index.
  lemma RepublishedHasCopy(config: Config, s: Store, b: int, tags: int -> string, now: int, i: int)
    requires StoreOk(config, s) && b >= 0 && i in s.rows
    ensures var t := RepairedBucket(config, s, b, tags, now);
      i in t.rows && (t.rows[i] != s.rows[i] ==>
        exists n :: (s.counter <= n < t.counter && n in t.rows
                     && t.rows[n] == Row(s.rows[i].blob, tags(n), 1, false, now, 0)))
  {
    var t := RepairedBucket(config, s, b, tags, now);
    var due := DueOf(GetMessages(s, config.bucketSize, b), now);
    RepairedBucketIsExact(config, s, b, tags, now);
    if t.rows[i] != s.rows[i] {
      var k :| 0 <= k < |due| && due[k].index == i;
      assert t.rows[s.counter + k] == NewRow(due[k].row.blob, tags(s.counter + k), now);
    }
  }

  lemma DueOfStep(messages: seq<Message>, k: nat, now: int)
    requires k < |messages|
    ensures DueOf(messages[..k + 1], now)
         == if Due(messages[k].row, now) then DueOf(messages[..k], now) + [messages[k]] else DueOf(messages[..k], now)
  {
    assert messages[..k + 1][..k] == messages[..k];
  }

  lemma RepublishNext(s: Store, messages: seq<Message>, k: nat, tags: int -> string, now: int)
    requires k < |messages|
    ensures var mid := RepublishAll(s, DueOf(messages[..k], now), tags, now);
      RepublishAll(s, DueOf(messages[..k + 1], now), tags, now)
      == if Due(messages[k].row, now) then RepublishRow(mid, messages[k], tags(mid.counter), now) else mid
  {
    DueOfStep(messages, k, now);
    RepublishAllStep(s, DueOf(messages[..k], now), messages[k], tags, now);
  }

  // Rows of the scan not handled yet are still as the scan saw them.
  lemma StillAsSeen(config: Config, s: Store, b: int, now: int, tags: int -> string, messages: seq<Message>, k: nat)
    requires StoreOk(config, s) && k < |messages| && IsScan(config, s, b, messages)
    ensures var mid := RepublishAll(s, DueOf(messages[..k], now), tags, now);
      messages[k].index in mid.rows && mid.rows[messages[k].index] == messages[k].row
  {
    assert messages[k] in messages;
    DueOfSnapshot(config, s, b, messages, k, now);
    RepublishAllIsExact(s, DueOf(messages[..k], now), tags, now);
  }

  lemma FullAndAckedScan(config: Config, s: Store, b: int)
    requires StoreOk(config, s) && b >= 0
    ensures var messages := GetMessages(s, config.bucketSize, b);
      (|messages| == config.bucketSize && forall m :: m in messages ==> m.row.acked) <==> FullAndAcked(config, s, b)
  {
    var messages := GetMessages(s, config.bucketSize, b);
    ScanIsBucket(config, s, b);
    if forall m :: m in messages ==> m.row.acked {
      forall i | i in s.rows && InBucketOf(config, i, b) ensures s.rows[i].acked {
        assert Message(i, s.rows[i]) in messages;
      }
    }
  }

  lemma FullAndAckedFrame(config: Config, s: Store, t: Store)
    requires s.rows == t.rows
    ensures forall b :: FullAndAcked(config, s, b) ==> FullAndAcked(config, t, b)
  {
  }

  // A bucket the repairer may pass without waiting.
  ghost predicate FullAndAcked(config: Config, s: Store, b: int) {
    && (forall i :: StartOf(config.bucketSize, b) <= i < StartOf(config.bucketSize, b + 1) ==> i in s.rows)
    && (forall i :: i in s.rows && InBucketOf(config, i, b) ==> s.rows[i].acked)
  }

  function Remaining(config: Config, s: Store, b: int): nat {
    if s.counter >= 0 && b <= BucketOf(config.bucketSize, s.counter)
    then BucketOf(config.bucketSize, s.counter) + 1 - b else 0
  }
}

module QueueService {
  import opened Wrappers
  import opened Buckets
  import opened Tables
  import opened Machine
  import opened ServiceSpec
  import opened Fifo

  datatype AckResult = AckFailed | AckRefused | AckDone

  class Queue {
    const config: Config
    var now: int
    var counter: int
    var reader: int
    var repair: int
    var invis: int
    var rows: map<int, Row>
    var tombs: map<int, int>

    function View(): Store
      reads this
    {
      Store(counter, reader, repair, invis, rows, tombs)
    }

    ghost predicate Valid()
      reads this
    {
      StoreOk(config, View())
    }

    // QueueRepositoryImpl.createQueue
    constructor (config: Config, now: int)
      ensures Valid() && this.config == config && this.now == now && View() == EMPTY_STORE
    {
      this.config := config;
      this.now := now;
      counter, reader, repair, invis := 0, 0, 0, -1;
      rows, tombs := map[], map[];
    }

    // Clock: time passes.
    method Tick(millis: nat)
      requires Valid()
      modifies this`now
      ensures now == old(now) + millis
    {
      now := now + millis;
    }

    // ---- MonotonicRepoImpl ----

    method IncrementMonotonicValue() returns (r: Option<int>)
      modifies this`counter
      ensures View() == IncrementMonoton(old(View()), old(counter)) && r == Some(old(counter))
    {
      var current := counter;
      if counter == current {
        counter := current + 1;
        r := Some(current);
      } else {
        r := None;
      }
    }

    method NextMonotonic() returns (index: int)
      requires Valid()
      modifies this`counter
      ensures Valid() && index == old(counter) && counter == old(counter) + 1
    {
      var next: Option<int> := None;
      while next == None
        invariant next == None ==> counter == old(counter)
        invariant next != None ==> next == Some(old(counter)) && counter == old(counter) + 1
        decreases if next == None then 1 else 0
      {
        next := IncrementMonotonicValue();
      }
      index := next.value;
    }

    // ---- MessageRepositoryImpl ----

    method PutMessage(index: int, blob: string, tag: string, invisibility: int) returns (inserted: bool)
      modifies this`rows
      ensures View() == Put(old(View()), index, NewRow(blob, tag, now + invisibility))
      ensures inserted <==> index !in old(rows)
    {
      inserted := index !in rows;
      if inserted { rows := rows[index := NewRow(blob, tag, now + invisibility)]; }
    }

    method ConsumeMessage(m: Message, duration: int) returns (r: Option<Message>)
      modifies this`rows
      ensures View() == Consume(old(View()), m, now + duration)
      ensures r.Some? <==>
        m.index in old(rows) && old(rows)[m.index].version == m.row.version && !old(rows)[m.index].acked
      ensures r == if Consumable(old(View()), m) then Some(m.(row := m.row.(version := m.row.version + 1))) else None
    {
      var newInvisTime := now + duration;
      if m.index in rows && rows[m.index].version == m.row.version && !rows[m.index].acked {
        rows := rows[m.index := rows[m.index].(nextVisible := newInvisTime,
                                               version := m.row.version + 1,
                                               deliveryCount := m.row.deliveryCount + 1)];
        r := Some(m.(row := m.row.(version := m.row.version + 1)));
      } else {
        r := None;
      }
    }

    method AckRow(m: Message) returns (applied: bool)
      modifies this`rows
      ensures View() == Ack(old(View()), m)
      ensures applied <==> m.index in old(rows) && old(rows)[m.index].version == m.row.version
    {
      applied := m.index in rows && rows[m.index].version == m.row.version;
      if applied {
        rows := rows[m.index := rows[m.index].(acked := true, version := m.row.version + 1)];
      }
    }

    method TombstoneBucket(b: int)
      modifies this`tombs
      ensures View() == Tombstone(old(View()), b, now)
      ensures tombs == if b in old(tombs) then old(tombs) else old(tombs)[b := now]
    {
      if b !in tombs { tombs := tombs[b := now]; }
    }

    // ---- PointerRepositoryImpl: the destination if applied, the original otherwise ----

    method AdvanceMessageBucketPointer(original: int) returns (pointer: int)
      modifies this`reader
      ensures View() == AdvanceReader(old(View()), original)
      ensures pointer == if old(reader) == original then original + 1 else original
    {
      if reader == original {
        reader := original + 1;
        pointer := original + 1;
      } else {
        pointer := original;
      }
    }

    method AdvanceRepairBucketPointer(original: int) returns (pointer: int)
      modifies this`repair
      ensures View() == AdvanceRepair(old(View()), original)
      ensures pointer == if old(repair) == original then original + 1 else original
    {
      if repair == original {
        repair := original + 1;
        pointer := original + 1;
      } else {
        pointer := original;
      }
    }

    // Two compare-and-sets: lower the pointer, else move it from its original value.
    method TryMoveInvisibilityPointerTo(original: int, destination: int) returns (pointer: int)
      modifies this`invis
      ensures View() == MoveInvis(LowerInvis(old(View()), destination), original, destination)
      ensures old(invis) > destination || old(invis) == original ==> invis == destination
      ensures old(invis) <= destination && old(invis) != original ==> invis == old(invis)
      ensures pointer == if old(invis) > destination || old(invis) == original then destination else original
    {
      pointer := original;
      if invis > destination {
        invis := destination;
        pointer := destination;
      }
      if pointer == original {
        if invis == original {
          invis := destination;
          pointer := destination;
        }
      }
    }

    // ---- ReaderImpl ----

    method TryGetNowVisibleMessage(pointer: int, duration: int) returns (r: Option<Message>)
      requires Valid()
      modifies this`rows, this`invis
      ensures Valid() && Scanned(config, old(View()), View(), pointer, now, duration, r)
      decreases Remaining(config, View(), InvisBucket(config.bucketSize, pointer)), 1
    {
      var messageAt := GetMessage(View(), pointer);
      if messageAt == None {
        r := TryGetNextInvisMessage(pointer, duration);
      } else {
        var m := messageAt.value;
        if m.row.deliveryCount == 0 {
          r := None;
        } else if m.row.Visible(now) && !m.row.acked {
          r := ConsumeMessage(m, duration);
        } else if m.row.acked {
          r := TryGetNextInvisMessage(pointer, duration);
        } else {
          r := None;
        }
      }
    }

    method TryGetNextInvisMessage(pointer: int, duration: int) returns (r: Option<Message>)
      requires Valid() && Left(View(), pointer)
      modifies this`rows, this`invis
      ensures Valid() && Scanned(config, old(View()), View(), pointer, now, duration, r)
      decreases Remaining(config, View(), InvisBucket(config.bucketSize, pointer)), 0
    {
      var b := InvisBucket(config.bucketSize, pointer);
      var messages := GetMessages(View(), config.bucketSize, b);
      ScanIsBucket(config, View(), b);
      if |messages| == 0 {
        NothingScanned(config, View(), b, messages);
        ScannedEmpty(config, View(), pointer, now, duration);
        r := None;
        return;
      }
      var k := 0;
      while k < |messages|
            && !(!messages[k].row.acked && !messages[k].row.Visible(now) && messages[k].row.deliveryCount > 0)
        invariant 0 <= k <= |messages|
        invariant forall j :: 0 <= j < k ==> !Leased(View(), messages[j].index, now)
      {
        assert messages[k] in messages;
        k := k + 1;
      }
      if k < |messages| {
        FirstOfScan(config, View(), b, now, messages, k);
        ScannedPark(config, View(), pointer, now, duration, messages[k].index);
        var p := TryMoveInvisibilityPointerTo(pointer, messages[k].index);
        r := None;
      } else {
        ghost var s := View();
        NoneOfScan(config, s, b, now, messages);
        NextBucketRemains(config, s, pointer);
        r := TryGetNowVisibleMessage(NextBucketStart(config, pointer), duration);
        ScannedGoOn(config, s, View(), pointer, now, duration, r);
      }
    }

    // The first unacked visible message, if there is one.
    method FirstVisible(messages: seq<Message>) returns (k: nat)
      ensures k <= |messages|
      ensures forall j :: 0 <= j < k ==> messages[j].row.acked || !messages[j].row.Visible(now)
      ensures k < |messages| ==> !messages[k].row.acked && messages[k].row.Visible(now)
    {
      k := 0;
      while k < |messages| && (messages[k].row.acked || !messages[k].row.Visible(now))
        invariant k <= |messages|
        invariant forall j :: 0 <= j < k ==> messages[j].row.acked || !messages[j].row.Visible(now)
      {
        k := k + 1;
      }
    }

    // tombstone, then advanceBucket
    method CloseBucket(bucket: int) returns (next: int)
      requires Valid() && bucket == reader && StartOf(config.bucketSize, bucket + 1) <= counter
      modifies this`tombs, this`reader
      ensures Valid() && View() == AdvanceReader(Tombstone(old(View()), bucket, now), bucket)
      ensures next == reader == bucket + 1 && bucket in tombs
    {
      TombstoneBucket(bucket);
      next := AdvanceMessageBucketPointer(bucket);
    }

    method GetAndMark(currentBucket: int, duration: int) returns (r: Option<Message>)
      requires Valid() && currentBucket == reader
      modifies this`rows, this`tombs, this`reader
      ensures Valid() && Marked(config, old(View()), View(), now, duration, r)
      decreases Remaining(config, View(), currentBucket)
    {
      ghost var s := View();
      var allMessages := GetMessages(View(), config.bucketSize, currentBucket);
      var k := FirstVisible(allMessages);
      if k == |allMessages| {
        NothingToDeliver(config, s, currentBucket, now);
        var pastBucket := MonotonPastBucket(currentBucket);
        if |allMessages| == config.bucketSize || pastBucket {
          ClosableIsBehind(config, s, currentBucket);
          var next := CloseBucket(currentBucket);
          ghost var mid := View();
          r := GetAndMark(next, duration);
          MarkedOneMore(config, s, mid, View(), now, duration, r);
        } else {
          MarkedNothing(config, s, now, duration);
          r := None;
        }
      } else {
        MarkedDelivery(config, s, now, duration, k);
        // without interference the consume cannot be lost, so there is no retry
        r := ConsumeMessage(allMessages[k], duration);
      }
    }

    method MonotonPastBucket(bucket: int) returns (past: bool)
      requires Valid()
      ensures past <==> StartOf(config.bucketSize, bucket + 1) <= counter
    {
      past := BucketOf(config.bucketSize, counter) > bucket;
      BeforeBucket(config.bucketSize, counter, bucket + 1);
    }

    // The next message: one that has come back alive under the invisibility pointer, or
    // else the first deliverable message of the first bucket that is not used up.
    method NextMessage(duration: int) returns (r: Option<Message>)
      requires Valid()
      modifies this`rows, this`tombs, this`reader, this`invis
      ensures Valid()
      ensures Fetched(config, old(View()), View(), now, duration, r)
    {
      r := TryGetNowVisibleMessage(invis, duration);
      if r == None {
        ghost var mid := View();
        r := GetAndMark(reader, duration);
        assert Marked(config, mid, View(), now, duration, r);
      }
    }

    method AckMessage(receipt: Receipt) returns (result: AckResult)
      requires Valid()
      modifies this`rows
      ensures Valid()
      ensures result == AckFailed <==> receipt.index !in old(rows)
      ensures result == AckDone <==>
        receipt.index in old(rows) && old(rows)[receipt.index].version == receipt.version
        && old(rows)[receipt.index].tag == receipt.tag
      ensures View() == if result == AckDone
                        then Ack(old(View()), Message(receipt.index, old(rows)[receipt.index]))
                        else old(View())
    {
      var messageAt := GetMessage(View(), receipt.index);
      if messageAt == None {
        return AckFailed;
      }
      var m := messageAt.value;
      if m.row.version != receipt.version || m.row.tag != receipt.tag {
        return AckRefused;
      }
      var applied := AckRow(m);
      result := if applied then AckDone else AckRefused;
    }

    // QueueResource.putMessage: allocate, then insert.
    method Enqueue(blob: string, tag: string, invisibility: int) returns (index: int)
      requires Valid()
      modifies this`rows, this`counter
      ensures Valid() && index == old(counter)
      ensures View() == Put(IncrementMonoton(old(View()), index), index, NewRow(blob, tag, now + invisibility))
      ensures Contents(View()) == old(Contents(View())) + [blob]
      ensures old(FifoOk(config, View())) ==> FifoOk(config, View())
    {
      index := NextMonotonic();
      var inserted := PutMessage(index, blob, tag, invisibility);
      PutAppends(old(rows), index, rows[index]);
      NewIndexIsAhead(config, old(View()));
    }

    // A producer that dies between allocating its index and inserting: the index stays empty.
    method Abandon() returns (index: int)
      requires Valid()
      modifies this`counter
      ensures Valid() && index == old(counter) && View() == IncrementMonoton(old(View()), index)
      ensures Contents(View()) == old(Contents(View()))
      ensures old(FifoOk(config, View())) ==> FifoOk(config, View())
    {
      index := NextMonotonic();
      NewIndexIsAhead(config, old(View()));
    }

    // nextMessage, then ackMessage with the receipt of the delivery: a plain dequeue.
    method Dequeue(duration: int) returns (r: Option<string>)
      requires FifoOk(config, View()) && AllVisible(View(), now)
      modifies this`rows, this`tombs, this`reader, this`invis
      ensures FifoOk(config, View()) && AllVisible(View(), now) && counter == old(counter)
      ensures old(Contents(View())) == [] <==> r == None
      ensures old(Contents(View())) == (if r.Some? then [r.value] else []) + Contents(View())
    {
      ghost var s := View();
      var m := NextMessage(duration);
      FetchIsMark(config, s, View(), now, duration, m);
      if m == None {
        EmptyMeansEmpty(config, s, View(), now, duration);
        PassedBucketsAcked(config, s, View(), now, duration, None);
        ReaderStaysBehind(config, s, View(), now, duration, None);
        r := None;
      } else {
        ghost var t := View();
        var receipt := Receipt(m.value.index, m.value.row.version, m.value.row.tag);
        var result := AckMessage(receipt);
        DeliveryRestores(config, s, t, View(), now, duration, m.value);
        r := Some(m.value.row.blob);
      }
    }

    // ---- RepairWorkerImpl ----

    // The first closed bucket that is not full and acked, moving the pointer past those
    // that are.
    method FindFirstBucketToMonitor() returns (r: Option<(int, int)>)
      requires Valid()
      modifies this`repair
      ensures Valid() && View() == old(View()).(repair := repair) && old(repair) <= repair
      ensures forall b :: old(repair) <= b < repair ==> b in tombs && FullAndAcked(config, View(), b)
      ensures r == None ==> repair !in tombs
      ensures r.Some? ==> r.value.0 == repair && repair in tombs && tombs[repair] == r.value.1
                          && !FullAndAcked(config, View(), repair)
    {
      var currentBucket := repair;
      while currentBucket in tombs
        invariant Valid() && View() == old(View()).(repair := repair) && old(repair) <= repair == currentBucket
        invariant forall b :: old(repair) <= b < repair ==> b in tombs && FullAndAcked(config, View(), b)
        decreases reader + 1 - currentBucket
      {
        var messages := GetMessages(View(), config.bucketSize, currentBucket);
        FullAndAckedScan(config, View(), currentBucket);
        if |messages| == config.bucketSize && (forall m :: m in messages ==> m.row.acked) {
          ghost var before := View();
          currentBucket := AdvanceRepairBucketPointer(currentBucket);
          FullAndAckedFrame(config, before, View());
        } else {
          return Some((currentBucket, tombs[currentBucket]));
        }
      }
      r := None;
    }

    // Waits the whole seconds left until tombstone time plus timeout; a sleep may last longer.
    method WaitForTimeout(tombstonedAt: int, overshoot: nat)
      modifies this`now
      ensures now >= old(now) && now > tombstonedAt + config.repairTimeout - 1000
    {
      var seconds := WholeSeconds(tombstonedAt + config.repairTimeout - now);
      if seconds > 0 { now := now + seconds * 1000 + overshoot; }
    }

    method RepublishMessage(message: Message, tag: string)
      requires Valid() && message.index in rows && rows[message.index] == message.row
      modifies this`rows, this`counter
      ensures Valid()
      ensures View() == RepublishRow(old(View()), message, tag, now)
    {
      var nextIndex := NextMonotonic();
      var inserted := PutMessage(nextIndex, message.row.blob, tag, 0);
      var acked := AckRow(message);
    }

    method RepublishDue(messages: seq<Message>, b: int, tags: int -> string)
      requires Valid() && IsScan(config, View(), b, messages)
      modifies this`rows, this`counter
      ensures Valid() && View() == RepublishAll(old(View()), DueOf(messages, now), tags, now)
    {
      ghost var s := View();
      var k := 0;
      while k < |messages|
        invariant 0 <= k <= |messages| && Valid()
        invariant View() == RepublishAll(s, DueOf(messages[..k], now), tags, now)
      {
        RepublishNext(s, messages, k, tags, now);
        if Due(messages[k].row, now) {
          StillAsSeen(config, s, b, now, tags, messages, k);
          RepublishMessage(messages[k], tags(counter));
        }
        k := k + 1;
      }
      assert messages[..k] == messages;
    }

    method WatchBucket(b: int, tombstonedAt: int, overshoot: nat, tags: int -> string)
      requires Valid() && b >= 0
      modifies this
      ensures Valid() && now >= old(now) && now > tombstonedAt + config.repairTimeout - 1000
      ensures View() == AdvanceRepair(RepairedBucket(config, old(View()), b, tags, now), b)
      ensures forall i :: i in old(rows) ==>
        i in rows && (rows[i] != old(rows)[i] <==>
          BucketOf(config.bucketSize, i) == b
          && !old(rows)[i].acked && old(rows)[i].nextVisible < now && old(rows)[i].deliveryCount == 0)
    {
      ghost var s := View();
      WaitForTimeout(tombstonedAt, overshoot);
      var messages := GetMessages(View(), config.bucketSize, b);
      ScanIsBucket(config, View(), b);
      RepublishDue(messages, b, tags);
      PassChangesIff(config, s, b, tags, now);
      var p := AdvanceRepairBucketPointer(b);
    }

    // One run of the repair worker.
    method Process(overshoot: nat, tags: int -> string) returns (watched: Option<int>)
      requires Valid()
      modifies this
      ensures Valid() && now >= old(now) && old(repair) <= repair
      ensures forall b :: old(repair) <= b < (if watched.Some? then watched.value else repair) ==>
        b in old(tombs) && FullAndAcked(config, old(View()), b)
      ensures watched.Some? ==> !FullAndAcked(config, old(View()), watched.value)
      ensures watched == None ==> repair !in tombs && View() == old(View()).(repair := repair) && now == old(now)
      ensures watched.Some? ==>
        var b := watched.value;
        && old(repair) <= b && repair == b + 1 && b in old(tombs)
        && now > old(tombs)[b] + config.repairTimeout - 1000
        && View() == RepairedBucket(config, old(View()).(repair := b), b, tags, now).(repair := b + 1)
    {
      ghost var was := View();
      var first := FindFirstBucketToMonitor();
      FullAndAckedFrame(config, View(), was);
      FullAndAckedFrame(config, was, View());
      if first == None {
        watched := None;
      } else {
        ghost var mid := View();
        WatchBucket(first.value.0, first.value.1, overshoot, tags);
        RepairedBucketIsExact(config, mid, first.value.0, tags, now);
        watched := Some(first.value.0);
      }
    }
  }
}
