// The repair guarantee over whole runs of one client: whatever is put, taken, acked and
// waited for between any number of passes, a message that is still unacked and undelivered
// behind the repair pointer was not visible when its bucket was watched.
module RepairRuns {
  import opened Wrappers
  import opened Buckets
  import opened Tables
  import opened Machine
  import opened ServiceSpec
  import opened QueueService

  datatype Work =
    | Put(blob: string, tag: string, invisibility: int)
    | GiveUp
    | Pause(millis: nat)
    | Take(duration: int)
    | Acknowledge(receipt: Receipt)
    | Pass(overshoot: nat, tags: int -> string)

  // What is behind the repair pointer, unacked and undelivered, became visible no earlier
  // than its bucket was watched, and the bucket was watched after its timeout, less one
  // second.
  ghost predicate Settled(config: Config, s: Store, watched: map<int, int>) {
    && (forall b :: b in watched ==> b in s.tombs && watched[b] > s.tombs[b] + config.repairTimeout - 1000)
    && (forall i :: Remains(config, s, s.repair, i) ==> Watched(config, s, watched, i))
  }

  // Unacked and undelivered before bucket b.
  predicate Remains(config: Config, s: Store, b: int, i: int) {
    i in s.rows && i >= 0 && BucketOf(config.bucketSize, i) < b && !s.rows[i].acked && s.rows[i].deliveryCount == 0
  }

  predicate Watched(config: Config, s: Store, watched: map<int, int>, i: int) {
    && i in s.rows && i >= 0
    && var b := BucketOf(config.bucketSize, i);
       b in watched && s.rows[i].nextVisible >= watched[b]
  }

  // No index behind the repair pointer is left to hand out.
  ghost predicate HandedOut(config: Config, s: Store) {
    StartOf(config.bucketSize, s.repair) <= s.counter
  }

  lemma NewIndexIsAhead(config: Config, s: Store, i: int)
    requires StoreOk(config, s) && HandedOut(config, s) && i >= s.counter
    ensures BucketOf(config.bucketSize, i) >= s.repair
  {
    BeforeBucket(config.bucketSize, i, s.repair);
  }

  lemma PutSettles(config: Config, s: Store, row: Row, watched: map<int, int>)
    requires StoreOk(config, s) && HandedOut(config, s) && Settled(config, s, watched)
    ensures Settled(config, Tables.Put(IncrementMonoton(s, s.counter), s.counter, row), watched)
    ensures HandedOut(config, Tables.Put(IncrementMonoton(s, s.counter), s.counter, row))
  {
    var t := Tables.Put(IncrementMonoton(s, s.counter), s.counter, row);
    NewIndexIsAhead(config, s, s.counter);
    KeepsSettled(config, s, t, watched);
  }

  // Whoever remains was there before, as it is.
  lemma KeepsSettled(config: Config, s: Store, t: Store, watched: map<int, int>)
    requires Settled(config, s, watched) && t.repair == s.repair
    requires forall b :: b in s.tombs ==> b in t.tombs && t.tombs[b] == s.tombs[b]
    requires forall i :: Remains(config, t, t.repair, i) ==> i in s.rows && t.rows[i] == s.rows[i]
    ensures Settled(config, t, watched)
  {
    forall i | Remains(config, t, t.repair, i) ensures Watched(config, t, watched, i) {
      assert Remains(config, s, s.repair, i);
    }
  }

  // A delivery or none, and perhaps new tombstones.
  lemma FetchSettles(config: Config, s: Store, t: Store, now: int, duration: int, r: Option<Message>,
                     watched: map<int, int>)
    requires StoreOk(config, s) && Settled(config, s, watched) && Fetched(config, s, t, now, duration, r)
    ensures Settled(config, t, watched) && t.repair == s.repair && t.counter == s.counter
  {
    FetchedRows(config, s, t, now, duration, r);
    KeepsSettled(config, s, t, watched);
  }

  lemma FetchedRows(config: Config, s: Store, t: Store, now: int, duration: int, r: Option<Message>)
    requires Fetched(config, s, t, now, duration, r)
    ensures t.repair == s.repair && t.counter == s.counter
    ensures forall b :: b in s.tombs ==> b in t.tombs && t.tombs[b] == s.tombs[b]
    ensures r.None? ==> t.rows == s.rows
    ensures r.Some? ==> DeliveredOnce(s, t, now, duration, r.value)
  {
  }

  lemma AckSettles(config: Config, s: Store, m: Message, watched: map<int, int>)
    requires Settled(config, s, watched)
    ensures Settled(config, Ack(s, m), watched)
  {
    KeepsSettled(config, s, Ack(s, m), watched);
  }

  // A pass that finds nothing to watch goes past full and acked buckets only.
  lemma SearchSettles(config: Config, s: Store, t: Store, watched: map<int, int>)
    requires StoreOk(config, s) && HandedOut(config, s) && Settled(config, s, watched)
    requires s.repair <= t.repair && t == s.(repair := t.repair)
    requires forall b :: s.repair <= b < t.repair ==> b in s.tombs && FullAndAcked(config, s, b)
    ensures Settled(config, t, watched) && HandedOut(config, t)
  {
    if s.repair < t.repair { assert t.repair - 1 in s.tombs; }
    forall i | Remains(config, t, t.repair, i) ensures Watched(config, t, watched, i) {
      var b := BucketOf(config.bucketSize, i);
      if s.repair <= b { assert FullAndAcked(config, s, b) && InBucketOf(config, i, b); }
      assert Remains(config, s, s.repair, i);
    }
  }

  // A row the pass leaves unacked and undelivered is as it was; in the watched bucket it
  // was not visible, and it is in no later bucket behind the pointer.
  lemma WatchedRow(config: Config, s: Store, t: Store, tags: int -> string, now: int, i: int)
    requires StoreOk(config, s) && HandedOut(config, s) && s.repair in s.tombs
    requires t == RepairedBucket(config, s, s.repair, tags, now)
    requires i in t.rows && i >= 0 && BucketOf(config.bucketSize, i) <= s.repair
    requires !t.rows[i].acked && t.rows[i].deliveryCount == 0
    ensures i in s.rows && t.rows[i] == s.rows[i]
    ensures BucketOf(config.bucketSize, i) == s.repair ==> s.rows[i].nextVisible >= now
  {
    PassChangesIff(config, s, s.repair, tags, now);
    if i !in s.rows {
      BeforeBucket(config.bucketSize, i, s.repair + 1);
      assert false;
    }
    if t.rows[i] != s.rows[i] { ChangedIsAcked(config, s, t, tags, now, i); }
  }

  lemma ChangedIsAcked(config: Config, s: Store, t: Store, tags: int -> string, now: int, i: int)
    requires StoreOk(config, s) && s.repair >= 0 && t == RepairedBucket(config, s, s.repair, tags, now)
    requires i in s.rows && i in t.rows && t.rows[i] != s.rows[i]
    ensures t.rows[i].acked
  {
    RepairedBucketIsExact(config, s, s.repair, tags, now);
  }

  lemma {:induction false} PassKeepsRest(config: Config, s: Store, tags: int -> string, now: int)
    requires StoreOk(config, s)
    ensures var t := RepairedBucket(config, s, s.repair, tags, now);
      t.tombs == s.tombs && t.repair == s.repair && t.counter >= s.counter
  {
    RepairedBucketIsExact(config, s, s.repair, tags, now);
  }

  // The watched bucket keeps only what was not visible.
  lemma {:induction false} WatchSettles(config: Config, s: Store, tags: int -> string, now: int, watched: map<int, int>)
    requires StoreOk(config, s) && HandedOut(config, s) && Settled(config, s, watched)
    requires s.repair in s.tombs && now > s.tombs[s.repair] + config.repairTimeout - 1000
    ensures var t := RepairedBucket(config, s, s.repair, tags, now).(repair := s.repair + 1);
      Settled(config, t, watched[s.repair := now]) && HandedOut(config, t)
  {
    var mid := RepairedBucket(config, s, s.repair, tags, now);
    PassKeepsRest(config, s, tags, now);
    forall i | Remains(config, mid, s.repair + 1, i) ensures AsItWas(config, s, mid, now, i) {
      WatchedRow(config, s, mid, tags, now, i);
    }
    RestSettles(config, s, mid, now, watched);
  }

  predicate AsItWas(config: Config, s: Store, t: Store, now: int, i: int) {
    && i >= 0 && i in s.rows && i in t.rows && t.rows[i] == s.rows[i]
    && (BucketOf(config.bucketSize, i) == s.repair ==> s.rows[i].nextVisible >= now)
  }

  lemma RestSettles(config: Config, s: Store, mid: Store, now: int, watched: map<int, int>)
    requires s.repair in s.tombs && now > s.tombs[s.repair] + config.repairTimeout - 1000
    requires Settled(config, s, watched) && mid.tombs == s.tombs && mid.repair == s.repair
    requires forall i :: Remains(config, mid, s.repair + 1, i) ==> AsItWas(config, s, mid, now, i)
    ensures Settled(config, mid.(repair := s.repair + 1), watched[s.repair := now])
  {
    var t := mid.(repair := s.repair + 1);
    forall i | Remains(config, t, t.repair, i) ensures Watched(config, t, watched[s.repair := now], i) {
      assert Remains(config, mid, s.repair + 1, i);
      assert AsItWas(config, s, mid, now, i);
      if BucketOf(config.bucketSize, i) != s.repair { assert Remains(config, s, s.repair, i); }
    }
  }

  // One piece of work; watched says when the buckets were watched.
  method Perform(q: Queue, work: Work, before: map<int, int>) returns (watched: map<int, int>)
    requires q.Valid() && HandedOut(q.config, q.View()) && Settled(q.config, q.View(), before)
    modifies q
    ensures q.Valid() && HandedOut(q.config, q.View()) && Settled(q.config, q.View(), watched)
    ensures forall b :: b in before ==> b in watched
  {
    ghost var s := q.View();
    watched := before;
    match work
    case Put(blob, tag, invisibility) =>
      PutSettles(q.config, s, NewRow(blob, tag, q.now + invisibility), before);
      var index := q.Enqueue(blob, tag, invisibility);
    case GiveUp =>
      var index := q.Abandon();
      KeepsSettled(q.config, s, q.View(), before);
    case Pause(millis) =>
      q.Tick(millis);
    case Take(duration) =>
      var m := q.NextMessage(duration);
      FetchSettles(q.config, s, q.View(), q.now, duration, m, before);
    case Acknowledge(receipt) =>
      if receipt.index in q.rows { AckSettles(q.config, s, Message(receipt.index, q.rows[receipt.index]), before); }
      var result := q.AckMessage(receipt);
    case Pass(overshoot, tags) =>
      watched := PerformPass(q, overshoot, tags, before);
  }

  method PerformPass(q: Queue, overshoot: nat, tags: int -> string, before: map<int, int>)
    returns (watched: map<int, int>)
    requires q.Valid() && HandedOut(q.config, q.View()) && Settled(q.config, q.View(), before)
    modifies q
    ensures q.Valid() && HandedOut(q.config, q.View()) && Settled(q.config, q.View(), watched)
    ensures forall b :: b in before ==> b in watched
  {
    ghost var s := q.View();
    watched := before;
    var b := q.Process(overshoot, tags);
    if b == None {
      SearchSettles(q.config, s, q.View(), before);
    } else {
      ghost var mid := s.(repair := b.value);
      SearchSettles(q.config, s, mid, before);
      WatchSettles(q.config, mid, tags, q.now, before);
      watched := before[b.value := q.now];
    }
  }

  // Any sequence of work on a new queue: a message behind the repair pointer that is
  // unacked and undelivered was not visible when its bucket was watched, and the bucket was
  // watched once its timeout, less one second, had run out.
  method PerformAll(config: Config, now: int, works: seq<Work>) returns (q: Queue, watched: map<int, int>)
    ensures fresh(q) && q.Valid() && q.config == config
    ensures forall b :: b in watched ==> b in q.tombs && watched[b] > q.tombs[b] + config.repairTimeout - 1000
    ensures forall i :: i in q.rows && BucketOf(config.bucketSize, i) < q.repair
                        && !q.rows[i].acked && q.rows[i].deliveryCount == 0 ==>
      var b := BucketOf(config.bucketSize, i);
      b in watched && !q.rows[i].Visible(watched[b])
  {
    q := new Queue(config, now);
    watched := map[];
    var i := 0;
    while i < |works|
      invariant 0 <= i <= |works| && fresh(q)
      invariant q.Valid() && q.config == config && HandedOut(config, q.View()) && Settled(config, q.View(), watched)
    {
      watched := Perform(q, works[i], watched);
      i := i + 1;
    }
    forall i | i in q.rows && BucketOf(config.bucketSize, i) < q.repair
               && !q.rows[i].acked && q.rows[i].deliveryCount == 0
      ensures var b := BucketOf(config.bucketSize, i); b in watched && !q.rows[i].Visible(watched[b])
    {
      assert Remains(config, q.View(), q.repair, i);
    }
  }
}
