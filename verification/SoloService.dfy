// The machine against the class: a process of the machine that runs a whole request by
// itself does to the tables what the service does in place.
module SoloReads {
  import opened Wrappers
  import opened Buckets
  import opened Tables
  import opened Machine
  import opened Invariants
  import opened ServiceSpec
  import opened QueueTheorems
  import opened Solo
  import opened Runs
  import opened Retries

  // ---- the invisibility scan ----

  // Where the scan ends: the request with it if it redelivered, else getAndMark begins.
  function AfterScan(d: int, r: Option<Message>): Pc { if r.Some? then Idle else ReadReader(d) }

  ghost predicate ScanEnds(s: State, p: nat, tag: string, w: World, v: World, d: int, pointer: int,
                           r: Option<Message>) {
    && Comes(s, p, tag, v, AfterScan(d, r)) && v.config == w.config && v.now == w.now
    && Scanned(w.config, w.store, v.store, pointer, w.now, d, r)
  }

  predicate Out(m: Message, now: int) { !m.row.acked && !m.row.Visible(now) && m.row.deliveryCount > 0 }

  lemma {:induction false} ScanTo(s: State, p: nat, tag: string, w: World, d: int, pointer: int,
                                  seen: seq<Message>, k: nat, n: nat)
    requires Comes(s, p, tag, w, ScanInvis(d, pointer, seen, k)) && k <= n <= |seen|
    requires forall j :: k <= j < n ==> !Out(seen[j], w.now)
    ensures Comes(s, p, tag, w, ScanInvis(d, pointer, seen, n))
    decreases n - k
  {
    if k < n {
      GoesOn(s, p, tag, w, ScanInvis(d, pointer, seen, k), ScanInvis(d, pointer, seen, k + 1));
      ScanTo(s, p, tag, w, d, pointer, seen, k + 1, n);
    }
  }

  // Two compare-and-sets move the stored pointer, or leave it.
  lemma ScanParks(s: State, p: nat, tag: string, w: World, d: int, pointer: int, dest: int) returns (v: World)
    requires Comes(s, p, tag, w, CasLowerInvis(d, pointer, dest))
    ensures v == w.(store := MoveInvis(LowerInvis(w.store, dest), pointer, dest))
    ensures Comes(s, p, tag, v, ReadReader(d))
  {
    var low := w.(store := LowerInvis(w.store, dest));
    var moved := if w.store.invis > dest then dest else pointer;
    var next := if moved == pointer then CasRaiseInvis(d, pointer, dest) else ReadReader(d);
    Goes(s, p, tag, w, CasLowerInvis(d, pointer, dest), DoLowerInvis(dest), next);
    v := low;
    if moved == pointer {
      Goes(s, p, tag, low, CasRaiseInvis(d, pointer, dest), DoMoveInvis(pointer, dest), ReadReader(d));
      v := low.(store := MoveInvis(low.store, pointer, dest));
    }
  }

  // The first message of a bucket that is out for delivery, or none.
  lemma FirstOut(seen: seq<Message>, now: int) returns (n: nat)
    ensures n <= |seen| && (forall j :: 0 <= j < n ==> !Out(seen[j], now)) && (n < |seen| ==> Out(seen[n], now))
  {
    n := 0;
    while n < |seen| && !Out(seen[n], now)
      invariant n <= |seen| && forall j :: 0 <= j < n ==> !Out(seen[j], now)
    {
      n := n + 1;
    }
  }

  // In the pointer's bucket, left behind: nothing there, something to wait for, or on to
  // the next bucket.
  lemma {:induction false} ScanBucket(s: State, p: nat, tag: string, w: World, d: int, pointer: int)
    returns (v: World, r: Option<Message>)
    requires Reachable(s) && Comes(s, p, tag, w, GetInvisBucket(d, pointer)) && Left(w.store, pointer)
    ensures ScanEnds(s, p, tag, w, v, d, pointer, r)
    decreases ScanLeft(w, pointer), 0
  {
    var c, st, b := w.config, w.store, InvisBucket(w.config.bucketSize, pointer);
    var seen := GetMessages(st, c.bucketSize, b);
    ComesReachable(s, p, tag, w, GetInvisBucket(d, pointer));
    InvStoreOk(w);
    ScanIsBucket(c, st, b);
    v, r := w, None;
    if |seen| == 0 {
      NothingScanned(c, st, b, seen);
      ScannedEmpty(c, st, pointer, w.now, d);
      GoesOn(s, p, tag, w, GetInvisBucket(d, pointer), ReadReader(d));
      return;
    }
    GoesOn(s, p, tag, w, GetInvisBucket(d, pointer), ScanInvis(d, pointer, seen, 0));
    var n := FirstOut(seen, w.now);
    ScanTo(s, p, tag, w, d, pointer, seen, 0, n);
    OutIsLeased(w, b, seen, n);
    if n < |seen| {
      FirstOfScan(c, st, b, w.now, seen, n);
      ScannedPark(c, st, pointer, w.now, d, seen[n].index);
      GoesOn(s, p, tag, w, ScanInvis(d, pointer, seen, n), CasLowerInvis(d, pointer, seen[n].index));
      v := ScanParks(s, p, tag, w, d, pointer, seen[n].index);
    } else {
      NoneOfScan(c, st, b, w.now, seen);
      GoesOn(s, p, tag, w, ScanInvis(d, pointer, seen, n), GetAtInvis(d, NextBucketStart(c, pointer)));
      NextBucketRemains(c, st, pointer);
      v, r := ScanPointer(s, p, tag, w, d, NextBucketStart(c, pointer));
      ScannedGoOn(c, st, v.store, pointer, w.now, d, r);
    }
  }

  lemma OutIsLeased(w: World, b: int, seen: seq<Message>, n: nat)
    requires IsScan(w.config, w.store, b, seen) && n <= |seen|
    requires forall j :: 0 <= j < n ==> !Out(seen[j], w.now)
    ensures forall j :: 0 <= j < n ==> !Leased(w.store, seen[j].index, w.now)
    ensures n < |seen| && Out(seen[n], w.now) ==> Leased(w.store, seen[n].index, w.now)
  {
    forall j | 0 <= j < |seen| ensures seen[j].index in w.store.rows && w.store.rows[seen[j].index] == seen[j].row {
      assert seen[j] in seen;
    }
  }

  function ScanLeft(w: World, pointer: int): nat {
    Remaining(w.config, w.store, InvisBucket(w.config.bucketSize, pointer))
  }

  // At the pointer's message.
  lemma {:induction false} ScanPointer(s: State, p: nat, tag: string, w: World, d: int, pointer: int)
    returns (v: World, r: Option<Message>)
    requires Reachable(s) && Comes(s, p, tag, w, GetAtInvis(d, pointer))
    ensures ScanEnds(s, p, tag, w, v, d, pointer, r)
    decreases ScanLeft(w, pointer), 1
  {
    ComesReachable(s, p, tag, w, GetAtInvis(d, pointer));
    if pointer !in w.store.rows {
      GoesOn(s, p, tag, w, GetAtInvis(d, pointer), GetInvisBucket(d, pointer));
      v, r := ScanBucket(s, p, tag, w, d, pointer);
    } else {
      var m := Message(pointer, w.store.rows[pointer]);
      var next := ScanMessage(s, p, tag, w, d, m);
      v, r := w, None;
      if next.ConsumeClock? {
        v, r := Redelivers(s, p, tag, w, d, m);
      } else if next.GetInvisBucket? {
        v, r := ScanBucket(s, p, tag, w, d, pointer);
      }
    }
  }

  // At a message that is there: deliver it again, wait for it, or leave it behind.
  lemma ScanMessage(s: State, p: nat, tag: string, w: World, d: int, m: Message) returns (next: Pc)
    requires Comes(s, p, tag, w, GetAtInvis(d, m.index)) && Inv(w)
    requires m.index in w.store.rows && w.store.rows[m.index] == m.row
    ensures Comes(s, p, tag, w, next)
    ensures next == (if m.row.deliveryCount == 0 then ReadReader(d)
                     else if m.row.acked then GetInvisBucket(d, m.index)
                     else if m.row.Visible(w.now) then ConsumeClock(d, m, FromInvis)
                     else ReadReader(d))
    ensures next.ReadReader? ==> ScanEnds(s, p, tag, w, w, d, m.index, None)
    ensures m.row.deliveryCount >= 0
  {
    InvStoreOk(w);
    if m.row.deliveryCount == 0 {
      next := ReadReader(d);
      GoesOn(s, p, tag, w, GetAtInvis(d, m.index), next);
      NotDelivered(s, p, tag, w, d, m.index);
    } else {
      GoesOn(s, p, tag, w, GetAtInvis(d, m.index), CheckAtInvis(d, m));
      next := if m.row.acked then GetInvisBucket(d, m.index)
              else if m.row.Visible(w.now) then ConsumeClock(d, m, FromInvis) else ReadReader(d);
      GoesOn(s, p, tag, w, CheckAtInvis(d, m), next);
      if next.ReadReader? { StillOut(s, p, tag, w, d, m.index); }
    }
  }

  lemma NotDelivered(s: State, p: nat, tag: string, w: World, d: int, pointer: int)
    requires Comes(s, p, tag, w, ReadReader(d)) && Inv(w)
    requires pointer in w.store.rows && w.store.rows[pointer].deliveryCount == 0
    ensures ScanEnds(s, p, tag, w, w, d, pointer, None)
  {
  }

  lemma StillOut(s: State, p: nat, tag: string, w: World, d: int, pointer: int)
    requires Comes(s, p, tag, w, ReadReader(d)) && Inv(w) && Leased(w.store, pointer, w.now)
    ensures ScanEnds(s, p, tag, w, w, d, pointer, None)
  {
  }

  // The message under the pointer has come back alive: it is delivered again.
  lemma Redelivers(s: State, p: nat, tag: string, w: World, d: int, m: Message) returns (v: World, r: Option<Message>)
    requires Comes(s, p, tag, w, ConsumeClock(d, m, FromInvis))
    requires m.index in w.store.rows && w.store.rows[m.index] == m.row
    requires !m.row.acked && m.row.Visible(w.now) && m.row.deliveryCount > 0
    ensures r == Some(m.(row := m.row.(version := m.row.version + 1)))
    ensures v == Apply(w, p, DoConsume(m, w.now, d)) && ScanEnds(s, p, tag, w, v, d, m.index, r)
  {
    Consumes(s, p, tag, w, d, m, FromInvis);
    v, r := Apply(w, p, DoConsume(m, w.now, d)), Some(m.(row := m.row.(version := m.row.version + 1)));
  }

  // ---- getAndMark ----

  // From the stored bucket the call does what getAndMark does.
  lemma {:induction false} MarksAlone(s: State, p: nat, tag: string, w: World, d: int, call: Call)
    returns (v: World, r: Option<Message>)
    requires Reachable(s) && Comes(s, p, tag, w, GetBucket(d, w.store.reader, call))
    ensures Comes(s, p, tag, v, Idle) && v.config == w.config && v.now == w.now
    ensures Marked(w.config, w.store, v.store, w.now, d, r)
    decreases Remaining(w.config, w.store, w.store.reader)
  {
    var c, st, b := w.config, w.store, w.store.reader;
    ComesToBucket(s, p, tag, w, d, b, call);
    if !Complete(c, st, b, w.now) {
      v, r := DeliversAlone(s, p, tag, w, d, call);
      return;
    }
    CompleteBucket(s, p, tag, w, d, b, call);
    if Closable(c, st, b) {
      MovesReader(s, p, tag, Closing(w, b), d, b, call);
      ClosableIsBehind(c, st, b);
      var mid := Moved(Closing(w, b), b);
      v, r := MarksAlone(s, p, tag, mid, d, call);
      MarkedOneMore(c, st, mid.store, v.store, w.now, d, r);
    } else {
      MarkedNothing(c, st, w.now, d);
      v, r := w, None;
    }
  }

  lemma DeliversAlone(s: State, p: nat, tag: string, w: World, d: int, call: Call)
    returns (v: World, r: Option<Message>)
    requires Comes(s, p, tag, w, GetBucket(d, w.store.reader, call)) && Inv(w) && w.store.reader >= 0
    requires !Complete(w.config, w.store, w.store.reader, w.now)
    ensures Comes(s, p, tag, v, Idle) && v.config == w.config && v.now == w.now
    ensures Marked(w.config, w.store, v.store, w.now, d, r)
  {
    var i := SomeDeliverable(w, w.store.reader);
    var m := Message(i, w.store.rows[i]);
    DeliveringBucket(s, p, tag, w, d, w.store.reader, call, i);
    v, r := Apply(w, p, DoConsume(m, w.now, d)), Some(m.(row := m.row.(version := m.row.version + 1)));
  }

  // A lost consume is not the end of the call: getAndMark reads its bucket again, and a lost
  // redelivery leaves the scan for getAndMark.
  lemma LostConsumeGoesOn(s: State, p: nat, tag: string, w: World, d: int, m: Message, clock: int, caller: Caller)
    returns (v: World, r: Option<Message>)
    requires Reachable(s) && Comes(s, p, tag, w, ConsumeCas(d, m, clock, caller)) && !Consumable(w.store, m)
    requires caller.FromBucket? ==> caller.bucket == w.store.reader
    ensures Comes(s, p, tag, v, Idle) && v.config == w.config && v.now == w.now
    ensures Marked(w.config, w.store, v.store, w.now, d, r)
  {
    var call := Call(w.bumps, []);
    if caller.FromBucket? {
      call := caller.call.(lost := caller.call.lost + [Loss(m.index, m.row.version)]);
      LostConsume(s, p, tag, w, d, m, clock, caller, GetBucket(d, caller.bucket, call));
    } else {
      LostConsume(s, p, tag, w, d, m, clock, caller, ReadReader(d));
      GoesOn(s, p, tag, w, ReadReader(d), GetBucket(d, w.store.reader, call));
    }
    v, r := MarksAlone(s, p, tag, w, d, call);
  }

  lemma LostConsume(s: State, p: nat, tag: string, w: World, d: int, m: Message, clock: int, caller: Caller, next: Pc)
    requires Comes(s, p, tag, w, ConsumeCas(d, m, clock, caller)) && !Consumable(w.store, m)
    requires Does(w, ConsumeCas(d, m, clock, caller), DoConsume(m, clock, d), next, tag)
    ensures Comes(s, p, tag, w, next)
  {
    assert Apply(w, p, DoConsume(m, clock, d)) == w;
    Goes(s, p, tag, w, ConsumeCas(d, m, clock, caller), DoConsume(m, clock, d), next);
  }

  // ---- nextMessage ----

  // A process that runs nextMessage by itself does to the tables what the service's
  // nextMessage does: it redelivers, parks the pointer, closes buckets and delivers alike.
  lemma FetchesAlone(s: State, p: nat, tag: string, w: World, d: int) returns (v: World, r: Option<Message>)
    requires Reachable(s) && Comes(s, p, tag, w, ReadInvis(d))
    ensures Comes(s, p, tag, v, Idle) && v.config == w.config && v.now == w.now
    ensures Fetched(w.config, w.store, v.store, w.now, d, r)
  {
    GoesOn(s, p, tag, w, ReadInvis(d), GetAtInvis(d, w.store.invis));
    v, r := ScanPointer(s, p, tag, w, d, w.store.invis);
    if r == None {
      var mid, call := v, Call(v.bumps, []);
      GoesOn(s, p, tag, mid, ReadReader(d), GetBucket(d, mid.store.reader, call));
      v, r := MarksAlone(s, p, tag, mid, d, call);
      assert Scanned(w.config, w.store, mid.store, w.store.invis, w.now, d, None);
    }
  }
}

module SoloWrites {
  import opened Wrappers
  import opened Buckets
  import opened Tables
  import opened RowLog
  import opened Machine
  import opened Invariants
  import opened Effects
  import opened ServiceSpec
  import opened QueueTheorems
  import opened Solo
  import opened Runs
  import opened Retries

  // ---- nextMonotonic ----

  // Whatever the loop has read and lost before, by itself it gets the next index.
  lemma AllocatesAlone(s: State, p: nat, tag: string, w: World, job: Job, race: Race, current: int)
    requires Comes(s, p, tag, w, MonotonCas(job, race, current))
    ensures Comes(s, p, tag, Apply(w, p, Allocate(w.store.counter)), PutClock(job, w.store.counter))
  {
    var n := w.store.counter;
    if current == n {
      Goes(s, p, tag, w, MonotonCas(job, race, n), Allocate(n), PutClock(job, n));
    } else {
      var again := race.(lost := race.lost + 1);
      assert Apply(w, p, Allocate(current)) == w;
      Goes(s, p, tag, w, MonotonCas(job, race, current), Allocate(current), MonotonRead(job, again));
      AllocatesFromRead(s, p, tag, w, job, again);
    }
  }

  lemma AllocatesFromRead(s: State, p: nat, tag: string, w: World, job: Job, race: Race)
    requires Comes(s, p, tag, w, MonotonRead(job, race))
    ensures Comes(s, p, tag, Apply(w, p, Allocate(w.store.counter)), PutClock(job, w.store.counter))
  {
    var n := w.store.counter;
    GoesOn(s, p, tag, w, MonotonRead(job, race), MonotonCas(job, race, n));
    Goes(s, p, tag, w, MonotonCas(job, race, n), Allocate(n), PutClock(job, n));
  }

  // ---- putMessage ----

  // A process that runs putMessage by itself allocates the next index and inserts there.
  lemma PutsAlone(s: State, p: nat, tag: string, w: World, blob: string, invisibility: int, race: Race)
    returns (v: World)
    requires Reachable(s) && Comes(s, p, tag, w, MonotonRead(Produce(blob, invisibility), race))
    ensures Comes(s, p, tag, v, Idle) && v.config == w.config && v.now == w.now
    ensures v.store == w.store.(counter := w.store.counter + 1,
      rows := w.store.rows[w.store.counter := Row(blob, tag, 1, false, w.now + invisibility, 0)])
  {
    var job, n := Produce(blob, invisibility), w.store.counter;
    ComesReachable(s, p, tag, w, MonotonRead(job, race));
    AllocatesFromRead(s, p, tag, w, job, race);
    var mid := Apply(w, p, Allocate(n));
    GoesOn(s, p, tag, mid, PutClock(job, n), PutInsert(job, n, w.now));
    var e := Insert(n, NewRow(blob, tag, w.now + invisibility), w.now, None);
    Goes(s, p, tag, mid, PutInsert(job, n, w.now), e, Idle);
    v := Apply(mid, p, e);
  }

  // ---- ackMessage ----

  // A process that runs ackMessage by itself acks the row exactly if the row is there with
  // the receipt's version and tag, and otherwise changes nothing.
  lemma AcksAlone(s: State, p: nat, tag: string, w: World, receipt: Receipt) returns (v: World)
    requires Comes(s, p, tag, w, AckRead(receipt))
    ensures Comes(s, p, tag, v, Idle) && v.config == w.config && v.now == w.now
    ensures v.store == (var rows, i := w.store.rows, receipt.index;
      if i in rows && rows[i].version == receipt.version && rows[i].tag == receipt.tag
      then w.store.(rows := rows[i := rows[i].(acked := true, version := rows[i].version + 1)])
      else w.store)
  {
    var rows, i := w.store.rows, receipt.index;
    v := w;
    if i in rows && rows[i].version == receipt.version && rows[i].tag == receipt.tag {
      var m := Message(i, rows[i]);
      GoesOn(s, p, tag, w, AckRead(receipt), AckCas(m));
      Goes(s, p, tag, w, AckCas(m), DoAck(m, ClientAcked), Idle);
      v := Apply(w, p, DoAck(m, ClientAcked));
    } else {
      GoesOn(s, p, tag, w, AckRead(receipt), Idle);
    }
  }

  // ---- the repair pass ----

  function Named(tag: string): int -> string { _ => tag }

  // The pass goes past full and acked buckets and ends at an open one, or waits at a closed
  // one that is not full and acked.
  lemma {:induction false} SearchesAlone(s: State, p: nat, tag: string, w: World, b: int) returns (v: World, c: int)
    requires Reachable(s) && Comes(s, p, tag, w, FindTombstone(b)) && w.store.repair == b
    ensures b <= c && v == w.(store := w.store.(repair := c))
    ensures forall k :: b <= k < c ==> k in w.store.tombs && FullAndAcked(w.config, w.store, k)
    ensures c !in w.store.tombs ==> Comes(s, p, tag, v, Idle)
    ensures c in w.store.tombs ==>
      !FullAndAcked(w.config, w.store, c) && Comes(s, p, tag, v, WaitClock(c, w.store.tombs[c]))
    decreases w.store.reader + 1 - b
  {
    v, c := w, b;
    var next := JudgesAlone(s, p, tag, w, b);
    if next == FindTombstone(b + 1) {
      TombstoneIsBehind(s, p, tag, w, b);
      v, c := SearchesAlone(s, p, tag, Passed(w, b), b + 1);
      FullAndAckedFrame(w.config, Passed(w, b).store, w.store);
      FullAndAckedFrame(w.config, w.store, Passed(w, b).store);
    }
  }

  lemma TombstoneIsBehind(s: State, p: nat, tag: string, w: World, b: int)
    requires Reachable(s) && Comes(s, p, tag, w, FindTombstone(b)) && b in w.store.tombs
    ensures b <= w.store.reader
  {
    ComesReachable(s, p, tag, w, FindTombstone(b));
  }

  // One bucket of the search: open, passed, or to be watched.
  lemma JudgesAlone(s: State, p: nat, tag: string, w: World, b: int) returns (next: Pc)
    requires Reachable(s) && Comes(s, p, tag, w, FindTombstone(b)) && w.store.repair == b
    ensures b !in w.store.tombs <==> next == Idle
    ensures b in w.store.tombs && FullAndAcked(w.config, w.store, b) <==> next == FindTombstone(b + 1)
    ensures b in w.store.tombs && !FullAndAcked(w.config, w.store, b) ==> next == WaitClock(b, w.store.tombs[b])
    ensures Comes(s, p, tag, if next == FindTombstone(b + 1) then Passed(w, b) else w, next)
  {
    ComesReachable(s, p, tag, w, FindTombstone(b));
    InvStoreOk(w);
    next := Idle;
    if b !in w.store.tombs {
      GoesOn(s, p, tag, w, FindTombstone(b), Idle);
    } else {
      GoesOn(s, p, tag, w, FindTombstone(b), FindFull(b, w.store.tombs[b]));
      FullAndAckedScan(w.config, w.store, b);
      next := JudgesBucket(s, p, tag, w, b, w.store.tombs[b]);
      if next == CasRepairFull(b) {
        PassesBucket(s, p, tag, w, b);
        next := FindTombstone(b + 1);
      }
    }
  }

  // It waits the whole seconds left until tombstone time plus timeout, or not at all.
  lemma WaitsAlone(s: State, p: nat, tag: string, w: World, b: int, at: int)
    requires Comes(s, p, tag, w, WaitClock(b, at))
    ensures at + w.config.repairTimeout - w.now < 1000 ==> Comes(s, p, tag, w, ReadWatched(b, at))
    ensures at + w.config.repairTimeout - w.now >= 1000 ==>
      Comes(s, p, tag, w, Sleeping(b, at, w.now + (at + w.config.repairTimeout - w.now) / 1000 * 1000))
  {
    var left := at + w.config.repairTimeout - w.now;
    if left < 1000 {
      GoesOn(s, p, tag, w, WaitClock(b, at), ReadWatched(b, at));
    } else {
      GoesOn(s, p, tag, w, WaitClock(b, at), Sleeping(b, at, w.now + left / 1000 * 1000));
    }
  }

  // Asleep it stays until the time has come.
  lemma WakesIff(w: World, b: int, at: int, until: int, tag: string)
    ensures Moves(w, Sleeping(b, at, until), if w.now >= until then ReadWatched(b, at) else Sleeping(b, at, until), tag)
  {
  }

  // One row of the watched bucket: its copy is put and the original acked, if it is due.
  lemma HandlesRow(s: State, p: nat, tag: string, w: World, watch: Watch, k: nat) returns (v: World)
    requires Reachable(s) && Comes(s, p, tag, w, ScanWatched(watch, k)) && k < |watch.seen|
    requires watch.seen[k].index in w.store.rows && w.store.rows[watch.seen[k].index] == watch.seen[k].row
    ensures Comes(s, p, tag, v, ScanWatched(watch, k + 1)) && v.config == w.config && v.now == w.now
    ensures v.store == if Due(watch.seen[k].row, w.now) then RepublishRow(w.store, watch.seen[k], tag, w.now)
                       else w.store
  {
    if Due(watch.seen[k].row, w.now) {
      var job := Republish(watch, k);
      ComesReachable(s, p, tag, w, ScanWatched(watch, k));
      GoesOn(s, p, tag, w, ScanWatched(watch, k), MonotonRead(job, Race(w.store.counter, 0)));
      AllocatesFromRead(s, p, tag, w, job, Race(w.store.counter, 0));
      v := Republishes(s, p, tag, w, watch, k);
    } else {
      GoesOn(s, p, tag, w, ScanWatched(watch, k), ScanWatched(watch, k + 1));
      v := w;
    }
  }

  lemma Republishes(s: State, p: nat, tag: string, w: World, watch: Watch, k: nat) returns (v: World)
    requires k < |watch.seen| && Inv(w)
    requires watch.seen[k].index in w.store.rows && w.store.rows[watch.seen[k].index] == watch.seen[k].row
    requires Comes(s, p, tag, Apply(w, p, Allocate(w.store.counter)), PutClock(Republish(watch, k), w.store.counter))
    ensures Comes(s, p, tag, v, ScanWatched(watch, k + 1)) && v.config == w.config && v.now == w.now
    ensures v.store == RepublishRow(w.store, watch.seen[k], tag, w.now)
  {
    var job, n, m := Republish(watch, k), w.store.counter, watch.seen[k];
    var mid := Apply(w, p, Allocate(n));
    GoesOn(s, p, tag, mid, PutClock(job, n), PutInsert(job, n, w.now));
    var e := Insert(n, NewRow(m.row.blob, tag, w.now), w.now, Some(m.index));
    Goes(s, p, tag, mid, PutInsert(job, n, w.now), e, RepublishAck(watch, k, n));
    var put := Apply(mid, p, e);
    Goes(s, p, tag, put, RepublishAck(watch, k, n), DoAck(m, RepairAcked), ScanWatched(watch, k + 1));
    v := Apply(put, p, DoAck(m, RepairAcked));
  }

  // An ack that comes too late is not the end of the pass.
  lemma LostAckGoesOn(s: State, p: nat, tag: string, w: World, watch: Watch, k: nat, copy: int)
    requires Comes(s, p, tag, w, RepublishAck(watch, k, copy)) && k < |watch.seen| && !Ackable(w.store, watch.seen[k])
    ensures Comes(s, p, tag, w, ScanWatched(watch, k + 1))
  {
    assert Apply(w, p, DoAck(watch.seen[k], RepairAcked)) == w;
    Goes(s, p, tag, w, RepublishAck(watch, k, copy), DoAck(watch.seen[k], RepairAcked), ScanWatched(watch, k + 1));
  }

  // The rows of the watched bucket one after the other.
  lemma {:induction false} HandlesRows(s: State, p: nat, tag: string, w: World, watch: Watch, k: nat)
    returns (v: World)
    requires Reachable(s) && Comes(s, p, tag, w, ScanWatched(watch, 0)) && k <= |watch.seen|
    requires StoreOk(w.config, w.store) && IsScan(w.config, w.store, watch.bucket, watch.seen)
    ensures Comes(s, p, tag, v, ScanWatched(watch, k)) && v.config == w.config && v.now == w.now
    ensures v.store == RepublishAll(w.store, DueOf(watch.seen[..k], w.now), Named(tag), w.now)
  {
    if k == 0 {
      v := w;
    } else {
      var mid := HandlesRows(s, p, tag, w, watch, k - 1);
      StillAsSeen(w.config, w.store, watch.bucket, w.now, Named(tag), watch.seen, k - 1);
      v := HandlesRow(s, p, tag, mid, watch, k - 1);
      RepublishNext(w.store, watch.seen, k - 1, Named(tag), w.now);
    }
  }

  // Once it has waited, the pass does to the tables what the service's pass does.
  lemma RepairsAlone(s: State, p: nat, tag: string, w: World, b: int, at: int) returns (v: World)
    requires Reachable(s) && Comes(s, p, tag, w, ReadWatched(b, at)) && b >= 0
    ensures Comes(s, p, tag, v, Idle) && v.config == w.config && v.now == w.now
    ensures v.store == AdvanceRepair(RepairedBucket(w.config, w.store, b, Named(tag), w.now), b)
  {
    var seen := GetMessages(w.store, w.config.bucketSize, b);
    var watch := Watch(b, at, seen);
    ComesReachable(s, p, tag, w, ReadWatched(b, at));
    InvStoreOk(w);
    ScanIsBucket(w.config, w.store, b);
    GoesOn(s, p, tag, w, ReadWatched(b, at), ScanWatched(watch, 0));
    var mid := HandlesRows(s, p, tag, w, watch, |seen|);
    assert seen[..|seen|] == seen;
    v := LeavesBucket(s, p, tag, mid, watch);
  }

  lemma LeavesBucket(s: State, p: nat, tag: string, w: World, watch: Watch) returns (v: World)
    requires Comes(s, p, tag, w, ScanWatched(watch, |watch.seen|))
    ensures v == Passed(w, watch.bucket) && Comes(s, p, tag, v, Idle)
  {
    var b := watch.bucket;
    GoesOn(s, p, tag, w, ScanWatched(watch, |watch.seen|), CasRepairWatched(b));
    Goes(s, p, tag, w, CasRepairWatched(b), DoMoveRepair(b), Idle);
    v := Passed(w, b);
  }
}

// Whole requests, from any reachable state in which the process is idle.
module SoloRequests {
  import opened Wrappers
  import opened Tables
  import opened Machine
  import opened ServiceSpec
  import opened QueueTheorems
  import opened Solo
  import opened Runs
  import opened SoloReads
  import opened SoloWrites

  // Alone from its start, the request ends after n steps in this world.
  ghost predicate Serves(s: State, p: nat, tag: string, request: Request, n: nat, v: World) {
    && p < |s.procs|
    && Alone(Next(s, Step(p, Begin(request))), p, tag, n) == At(s, p, v, Idle)
    && v.config == s.w.config && v.now == s.w.now
  }

  lemma Asked(s: State, p: nat, tag: string, request: Request) returns (t: State)
    requires Reachable(s) && p < |s.procs| && s.procs[p].Idle?
    ensures t == Next(s, Step(p, Begin(request))) && Reachable(t) && t.w == s.w
    ensures t.procs == s.procs[p := Start(request, s.w)] && Comes(t, p, tag, s.w, Start(request, s.w))
  {
    t := Extend(s, Step(p, Begin(request)));
    Starts(t, p, tag);
  }

  lemma Served(s: State, t: State, p: nat, tag: string, request: Request, v: World) returns (n: nat)
    requires p < |s.procs| && t == Next(s, Step(p, Begin(request))) && t.procs == s.procs[p := Start(request, s.w)]
    requires Comes(t, p, tag, v, Idle) && v.config == s.w.config && v.now == s.w.now
    ensures Serves(s, p, tag, request, n, v)
  {
    n := ComesAlone(t, p, tag, v, Idle);
    assert t.procs[p := Idle] == s.procs[p := Idle];
  }

  lemma NextMessageAlone(s: State, p: nat, tag: string, d: int) returns (n: nat, v: World, r: Option<Message>)
    requires Reachable(s) && p < |s.procs| && s.procs[p].Idle?
    ensures Serves(s, p, tag, Request.NextMessage(d), n, v)
    ensures Fetched(s.w.config, s.w.store, v.store, s.w.now, d, r)
  {
    var t := Asked(s, p, tag, Request.NextMessage(d));
    v, r := FetchesAlone(t, p, tag, s.w, d);
    n := Served(s, t, p, tag, Request.NextMessage(d), v);
  }

  // In particular it delivers again the message under the stored pointer once its lease has
  // run out.
  lemma RedeliversAlone(s: State, p: nat, tag: string, d: int) returns (n: nat, v: World)
    requires Reachable(s) && p < |s.procs| && s.procs[p].Idle?
    requires var i := s.w.store.invis; Deliverable(s.w.store, i, s.w.now) && s.w.store.rows[i].deliveryCount > 0
    ensures Serves(s, p, tag, Request.NextMessage(d), n, v)
    ensures var i, row := s.w.store.invis, s.w.store.rows[s.w.store.invis];
      v.store == s.w.store.(rows := s.w.store.rows[i := row.(
        version := row.version + 1, nextVisible := s.w.now + d, deliveryCount := row.deliveryCount + 1)])
  {
    var r;
    n, v, r := NextMessageAlone(s, p, tag, d);
    assert Reaches(s.w.config, s.w.store, s.w.now, s.w.store.invis, s.w.store.invis);
  }

  lemma PutMessageAlone(s: State, p: nat, tag: string, blob: string, invisibility: int) returns (n: nat, v: World)
    requires Reachable(s) && p < |s.procs| && s.procs[p].Idle?
    ensures Serves(s, p, tag, Request.PutMessage(blob, invisibility), n, v)
    ensures v.store == s.w.store.(counter := s.w.store.counter + 1,
      rows := s.w.store.rows[s.w.store.counter := Row(blob, tag, 1, false, s.w.now + invisibility, 0)])
  {
    n, v := PutServed(s, p, tag, Request.PutMessage(blob, invisibility), blob, invisibility);
  }

  function WithRow(s: Store, row: Row): Store {
    s.(counter := s.counter + 1, rows := s.rows[s.counter := row])
  }

  lemma PutServed(s: State, p: nat, tag: string, request: Request, blob: string, invisibility: int)
    returns (n: nat, v: World)
    requires Reachable(s) && p < |s.procs| && s.procs[p].Idle? && request == Request.PutMessage(blob, invisibility)
    ensures Serves(s, p, tag, request, n, v)
    ensures v.store == WithRow(s.w.store, Row(blob, tag, 1, false, s.w.now + invisibility, 0))
  {
    var t := Asked(s, p, tag, request);
    v := PutAsked(t, p, tag, s.w, request, blob, invisibility);
    n := Served(s, t, p, tag, request, v);
  }

  lemma PutAsked(t: State, p: nat, tag: string, w: World, request: Request, blob: string, invisibility: int)
    returns (v: World)
    requires Reachable(t) && Comes(t, p, tag, w, Start(request, w)) && request == Request.PutMessage(blob, invisibility)
    ensures Comes(t, p, tag, v, Idle) && v.config == w.config && v.now == w.now
    ensures v.store == WithRow(w.store, Row(blob, tag, 1, false, w.now + invisibility, 0))
  {
    v := PutsAlone(t, p, tag, w, blob, invisibility, Race(w.store.counter, 0));
  }

  lemma AckMessageAlone(s: State, p: nat, tag: string, receipt: Receipt) returns (n: nat, v: World)
    requires Reachable(s) && p < |s.procs| && s.procs[p].Idle?
    ensures Serves(s, p, tag, Request.AckMessage(receipt), n, v)
    ensures v.store == (var rows, i := s.w.store.rows, receipt.index;
      if i in rows && rows[i].version == receipt.version && rows[i].tag == receipt.tag
      then s.w.store.(rows := rows[i := rows[i].(acked := true, version := rows[i].version + 1)])
      else s.w.store)
  {
    var t := Asked(s, p, tag, Request.AckMessage(receipt));
    v := AcksAlone(t, p, tag, s.w, receipt);
    n := Served(s, t, p, tag, Request.AckMessage(receipt), v);
  }

  // A repair pass goes past the full and acked buckets.  With an open bucket next it ends;
  // at a bucket whose timeout has run out, up to a second, it repairs it and goes past it;
  // else it sleeps.
  lemma RepairPassAlone(s: State, p: nat, tag: string) returns (n: nat, v: World, c: int)
    requires Reachable(s) && p < |s.procs| && s.procs[p].Idle?
    ensures s.w.store.repair <= c
    ensures forall b :: s.w.store.repair <= b < c ==> b in s.w.store.tombs && FullAndAcked(s.w.config, s.w.store, b)
    ensures c !in s.w.store.tombs ==>
      Serves(s, p, tag, RepairPass, n, v) && v.store == s.w.store.(repair := c)
    ensures c in s.w.store.tombs ==> !FullAndAcked(s.w.config, s.w.store, c)
    ensures c in s.w.store.tombs && s.w.store.tombs[c] + s.w.config.repairTimeout - s.w.now < 1000 ==>
      && Serves(s, p, tag, RepairPass, n, v)
      && v.store == RepairedBucket(s.w.config, s.w.store.(repair := c), c, Named(tag), s.w.now).(repair := c + 1)
    ensures c in s.w.store.tombs && s.w.store.tombs[c] + s.w.config.repairTimeout - s.w.now >= 1000 ==>
      && v == s.w.(store := s.w.store.(repair := c))
      && var at := s.w.store.tombs[c];
         Alone(Next(s, Step(p, Begin(RepairPass))), p, tag, n)
         == At(s, p, v, Sleeping(c, at, s.w.now + (at + s.w.config.repairTimeout - s.w.now) / 1000 * 1000))
  {
    var t := Asked(s, p, tag, RepairPass);
    v, c := FindsAlone(t, p, tag, s.w);
    if c !in s.w.store.tombs {
      n := Served(s, t, p, tag, RepairPass, v);
    } else if s.w.store.tombs[c] + s.w.config.repairTimeout - s.w.now < 1000 {
      v := RepairsFound(t, p, tag, v, c, s.w.store.tombs[c]);
      n := Served(s, t, p, tag, RepairPass, v);
    } else {
      n := SleepsFound(t, p, tag, v, c, s.w.store.tombs[c]);
      SameProcess(s, t, p, RepairPass, v,
        Sleeping(c, s.w.store.tombs[c],
                 s.w.now + (s.w.store.tombs[c] + s.w.config.repairTimeout - s.w.now) / 1000 * 1000));
    }
  }

  lemma SameProcess(s: State, t: State, p: nat, request: Request, w: World, pc: Pc)
    requires p < |s.procs| && t.procs == s.procs[p := Start(request, s.w)]
    ensures At(t, p, w, pc) == At(s, p, w, pc)
  {
  }

  // From its start the pass finds the first bucket that is open or needs watching.
  lemma FindsAlone(t: State, p: nat, tag: string, w: World) returns (v: World, c: int)
    requires Reachable(t) && Comes(t, p, tag, w, Start(RepairPass, w))
    ensures w.store.repair <= c && v == w.(store := w.store.(repair := c))
    ensures forall b :: w.store.repair <= b < c ==> b in w.store.tombs && FullAndAcked(w.config, w.store, b)
    ensures c !in w.store.tombs ==> Comes(t, p, tag, v, Idle)
    ensures c in w.store.tombs ==>
      !FullAndAcked(w.config, w.store, c) && Comes(t, p, tag, v, WaitClock(c, w.store.tombs[c]))
  {
    GoesOn(t, p, tag, w, ReadRepair, FindTombstone(w.store.repair));
    v, c := SearchesAlone(t, p, tag, w, w.store.repair);
  }

  lemma RepairsFound(t: State, p: nat, tag: string, w: World, c: int, at: int) returns (v: World)
    requires Reachable(t) && Comes(t, p, tag, w, WaitClock(c, at)) && w.store.repair == c
    requires at + w.config.repairTimeout - w.now < 1000
    ensures Comes(t, p, tag, v, Idle) && v.config == w.config && v.now == w.now
    ensures v.store == RepairedBucket(w.config, w.store, c, Named(tag), w.now).(repair := c + 1)
  {
    WaitsAlone(t, p, tag, w, c, at);
    v := RepairsStored(t, p, tag, w, c, at);
  }

  lemma SleepsFound(t: State, p: nat, tag: string, w: World, c: int, at: int) returns (n: nat)
    requires Comes(t, p, tag, w, WaitClock(c, at)) && at + w.config.repairTimeout - w.now >= 1000
    ensures p < |t.procs| && Alone(t, p, tag, n)
      == At(t, p, w, Sleeping(c, at, w.now + (at + w.config.repairTimeout - w.now) / 1000 * 1000))
  {
    WaitsAlone(t, p, tag, w, c, at);
    n := ComesAlone(t, p, tag, w, Sleeping(c, at, w.now + (at + w.config.repairTimeout - w.now) / 1000 * 1000));
  }

  // A pass at the stored bucket.
  lemma RepairsStored(s: State, p: nat, tag: string, w: World, b: int, at: int) returns (v: World)
    requires Reachable(s) && Comes(s, p, tag, w, ReadWatched(b, at)) && w.store.repair == b
    ensures Comes(s, p, tag, v, Idle) && v.config == w.config && v.now == w.now
    ensures v.store == RepairedBucket(w.config, w.store, b, Named(tag), w.now).(repair := b + 1)
  {
    ComesReachable(s, p, tag, w, ReadWatched(b, at));
    InvStoreOk(w);
    RepairedBucketIsExact(w.config, w.store, b, Named(tag), w.now);
    v := RepairsAlone(s, p, tag, w, b, at);
  }

  // A sleeping pass whose time has come repairs the bucket; it goes past it if the pointer
  // is still there.
  lemma SleeperRepairs(s: State, p: nat, tag: string, b: int, at: int, until: int) returns (n: nat, v: World)
    requires Reachable(s) && p < |s.procs| && s.procs[p] == Sleeping(b, at, until) && s.w.now >= until
    ensures Alone(s, p, tag, n) == At(s, p, v, Idle) && v.now == s.w.now
    ensures v.store == AdvanceRepair(RepairedBucket(s.w.config, s.w.store, b, Named(tag), s.w.now), b)
  {
    Starts(s, p, tag);
    WakesIff(s.w, b, at, until, tag);
    GoesOn(s, p, tag, s.w, Sleeping(b, at, until), ReadWatched(b, at));
    ComesReachable(s, p, tag, s.w, ReadWatched(b, at));
    v := RepairsAlone(s, p, tag, s.w, b, at);
    n := ComesAlone(s, p, tag, v, Idle);
  }
}
