// Building blocks of concrete runs: whole requests of one process, from any reachable
// state in which it is idle.
module Scenes {
  import opened Wrappers
  import opened Tables
  import opened RowLog
  import opened Machine
  import opened ServiceSpec
  import opened QueueTheorems
  import opened Solo
  import opened Runs

  const TAG := "t"

  lemma Begins(config: Config, now: int, n: nat) returns (s: State)
    ensures Reachable(s) && s == Init(config, now, n)
  {
    s := Init(config, now, n);
    assert s == Run(s, []);
  }

  lemma Asks(s: State, p: nat, request: Request) returns (t: State)
    requires Reachable(s) && p < |s.procs| && s.procs[p].Idle?
    ensures Reachable(t) && t == At(s, p, s.w, Start(request, s.w))
    ensures Comes(t, p, TAG, t.w, t.procs[p])
  {
    t := BeginReachable(s, p, request);
    Starts(t, p, TAG);
  }

  // Where process p has come to by itself is a state of its own.
  lemma Arrives(s: State, t: State, p: nat, w: World, pc: Pc) returns (u: State)
    requires p < |s.procs| == |t.procs| && t.procs[p := pc] == s.procs[p := pc]
    requires Reachable(t) && Comes(t, p, TAG, w, pc)
    ensures Reachable(u) && u == At(s, p, w, pc)
  {
    ComesReachable(t, p, TAG, w, pc);
    u := At(t, p, w, pc);
  }

  // A producer that holds the next index.
  lemma Allocates(s: State, p: nat, blob: string, invisibility: int) returns (t: State)
    requires Reachable(s) && p < |s.procs| && s.procs[p].Idle?
    ensures Reachable(t)
    ensures t == At(s, p, Apply(s.w, p, Allocate(s.w.store.counter)),
                    PutClock(Produce(blob, invisibility), s.w.store.counter))
  {
    var job, race := Produce(blob, invisibility), Race(s.w.store.counter, 0);
    var u := Asks(s, p, PutMessage(blob, invisibility));
    GoesOn(u, p, TAG, s.w, MonotonRead(job, race), MonotonCas(job, race, s.w.store.counter));
    WinsIndex(u, p, s.w, job, race);
    t := Arrives(s, u, p, Apply(s.w, p, Allocate(s.w.store.counter)), PutClock(job, s.w.store.counter));
  }

  lemma WinsIndex(s: State, p: nat, w: World, job: Job, race: Race)
    requires Comes(s, p, TAG, w, MonotonCas(job, race, w.store.counter))
    ensures Comes(s, p, TAG, Apply(w, p, Allocate(w.store.counter)), PutClock(job, w.store.counter))
  {
    var n := w.store.counter;
    Goes(s, p, TAG, w, MonotonCas(job, race, n), Allocate(n), PutClock(job, n));
  }

  // It dies there, and the index stays empty.
  lemma Abandons(s: State, p: nat) returns (t: State)
    requires Reachable(s) && p < |s.procs| && s.procs[p].Idle?
    ensures Reachable(t) && t == s.(w := Apply(s.w, p, Allocate(s.w.store.counter)))
  {
    var u := Allocates(s, p, "", 0);
    t := Extend(u, Step(p, Crash));
    assert t.procs == s.procs;
  }

  lemma {:induction false} AbandonsMany(s: State, p: nat, n: nat) returns (t: State)
    requires Reachable(s) && p < |s.procs| && s.procs[p].Idle?
    ensures Reachable(t) && t.procs == s.procs
    ensures t.w == s.w.(store := s.w.store.(counter := s.w.store.counter + n), owner := t.w.owner)
  {
    if n == 0 {
      t := s;
    } else {
      var u := AbandonsMany(s, p, n - 1);
      t := Abandons(u, p);
    }
  }

  // Or it goes on and inserts, at the time it reads the clock.
  lemma Inserts(s: State, p: nat, blob: string, invisibility: int, index: int) returns (t: State)
    requires Reachable(s) && p < |s.procs| && s.procs[p] == PutClock(Produce(blob, invisibility), index)
    ensures Reachable(t)
    ensures t == At(s, p, Apply(s.w, p, Insert(index, NewRow(blob, TAG, s.w.now + invisibility), s.w.now, None)), Idle)
  {
    var job := Produce(blob, invisibility);
    Starts(s, p, TAG);
    GoesOn(s, p, TAG, s.w, PutClock(job, index), PutInsert(job, index, s.w.now));
    var e := Insert(index, NewRow(blob, TAG, s.w.now + invisibility), s.w.now, None);
    Goes(s, p, TAG, s.w, PutInsert(job, index, s.w.now), e, Idle);
    t := Arrives(s, s, p, Apply(s.w, p, e), Idle);
  }

  // One whole put.
  lemma Writes(s: State, p: nat) returns (t: State)
    requires Reachable(s) && p < |s.procs| && s.procs[p].Idle?
    ensures Reachable(t) && t.procs == s.procs
    ensures t.w.config == s.w.config && t.w.now == s.w.now && t.w.bumps == s.w.bumps
    ensures var n := s.w.store.counter;
      && n !in s.w.store.rows
      && t.w.store == s.w.store.(counter := n + 1, rows := s.w.store.rows[n := NewRow("payload", TAG, s.w.now)])
  {
    ReachableInv(s);
    t := Allocates(s, p, "payload", 0);
    t := Inserts(t, p, "payload", 0, s.w.store.counter);
    assert t.procs == s.procs;
  }

  lemma MatchesRow(w: World, m: Message)
    requires m.index in w.store.rows && w.store.rows[m.index] == m.row
    ensures Moves(w, AckRead(Receipt(m.index, m.row.version, m.row.tag)), AckCas(m), TAG)
  {
  }

  lemma AcksRow(s: State, p: nat, w: World, m: Message)
    requires m.index in w.store.rows && w.store.rows[m.index] == m.row
    requires Comes(s, p, TAG, w, AckRead(Receipt(m.index, m.row.version, m.row.tag)))
    ensures Comes(s, p, TAG, Apply(w, p, DoAck(m, ClientAcked)), Idle)
  {
    MatchesRow(w, m);
    GoesOn(s, p, TAG, w, AckRead(Receipt(m.index, m.row.version, m.row.tag)), AckCas(m));
    Goes(s, p, TAG, w, AckCas(m), DoAck(m, ClientAcked), Idle);
  }

  // A client acks with any receipt that matches the row.
  lemma AcksMessage(s: State, p: nat, i: int) returns (t: State)
    requires Reachable(s) && p < |s.procs| && s.procs[p].Idle? && i in s.w.store.rows
    ensures Reachable(t) && t == s.(w := Apply(s.w, p, DoAck(Message(i, s.w.store.rows[i]), ClientAcked)))
  {
    var m := Message(i, s.w.store.rows[i]);
    var receipt := Receipt(i, m.row.version, m.row.tag);
    var u := Asks(s, p, AckMessage(receipt));
    AcksRow(u, p, s.w, m);
    t := Arrives(s, u, p, Apply(s.w, p, DoAck(m, ClientAcked)), Idle);
    assert t.procs == s.procs;
  }

  // A reader that comes to the stored bucket; bucket 0 is empty.
  lemma Reads(s: State, p: nat, d: int) returns (t: State)
    requires Reachable(s) && p < |s.procs| && s.procs[p].Idle? && s.w.store.invis == -1
    requires forall i :: 0 <= i < s.w.config.bucketSize ==> i !in s.w.store.rows
    ensures Reachable(t) && t == At(s, p, s.w, GetBucket(d, s.w.store.reader, Call(s.w.bumps, [])))
  {
    var u := Asks(s, p, NextMessage(d));
    ReachableInv(s);
    ComesToReader(u, p, TAG, s.w, d);
    t := Arrives(s, u, p, s.w, GetBucket(d, s.w.store.reader, Call(s.w.bumps, [])));
  }

  // It comes to the compare-and-set of a bucket it has closed.
  lemma Closes(s: State, p: nat, d: int, b: int, call: Call) returns (t: State)
    requires Reachable(s) && p < |s.procs| && s.procs[p] == GetBucket(d, b, call) && b >= 0
    requires Complete(s.w.config, s.w.store, b, s.w.now) && Closable(s.w.config, s.w.store, b)
    ensures Reachable(t) && t == At(s, p, Closing(s.w, b), CasReader(d, b, call))
  {
    ReachableInv(s);
    Starts(s, p, TAG);
    CompleteBucket(s, p, TAG, s.w, d, b, call);
    t := Arrives(s, s, p, Closing(s.w, b), CasReader(d, b, call));
  }

  lemma MovesOn(s: State, p: nat, d: int, b: int, call: Call) returns (t: State)
    requires Reachable(s) && p < |s.procs| && s.procs[p] == CasReader(d, b, call) && s.w.store.reader == b
    ensures Reachable(t)
    ensures t == At(s, p, s.w.(store := AdvanceReader(s.w.store, b)), GetBucket(d, b + 1, call))
  {
    Starts(s, p, TAG);
    Goes(s, p, TAG, s.w, CasReader(d, b, call), DoMoveReader(b), GetBucket(d, b + 1, call));
    t := Arrives(s, s, p, s.w.(store := AdvanceReader(s.w.store, b)), GetBucket(d, b + 1, call));
  }

  // It delivers the first deliverable message of a bucket.
  lemma Delivers(s: State, p: nat, d: int, b: int, call: Call, i: int) returns (t: State)
    requires Reachable(s) && p < |s.procs| && s.procs[p] == GetBucket(d, b, call) && b >= 0
    requires FirstDeliverable(s.w.config, s.w.store, b, s.w.now, i)
    ensures Reachable(t)
    ensures t == At(s, p, Apply(s.w, p, DoConsume(Message(i, s.w.store.rows[i]), s.w.now, d)), Idle)
  {
    ReachableInv(s);
    Starts(s, p, TAG);
    DeliveringBucket(s, p, TAG, s.w, d, b, call, i);
    t := Arrives(s, s, p, Apply(s.w, p, DoConsume(Message(i, s.w.store.rows[i]), s.w.now, d)), Idle);
  }

  // It ends at a bucket that has nothing to deliver and may not be closed.
  lemma FindsNothing(s: State, p: nat, d: int, b: int, call: Call) returns (t: State)
    requires Reachable(s) && p < |s.procs| && s.procs[p] == GetBucket(d, b, call) && b >= 0
    requires Complete(s.w.config, s.w.store, b, s.w.now) && !Closable(s.w.config, s.w.store, b)
    ensures Reachable(t) && t == At(s, p, s.w, Idle)
  {
    ReachableInv(s);
    Starts(s, p, TAG);
    CompleteBucket(s, p, TAG, s.w, d, b, call);
    t := Arrives(s, s, p, s.w, Idle);
  }

  lemma Waits(s: State, millis: nat) returns (t: State)
    requires Reachable(s)
    ensures Reachable(t) && t == s.(w := s.w.(now := s.w.now + millis))
  {
    t := Extend(s, Tick(millis));
  }
}
