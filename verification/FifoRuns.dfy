// The refinement over whole runs: any sequence of puts, abandoned puts, pauses and takes
// behaves as a plain queue of payloads does.
module FifoRuns {
  import opened Wrappers
  import opened Buckets
  import opened Machine
  import opened Fifo
  import opened QueueService

  // What a single client does.  The clock moves on by at least a millisecond after a put.
  datatype Op =
    | Put(blob: string, tag: string, pause: nat)
    | GiveUp
    | Pause(millis: nat)
    | Take(duration: int)

  // ---- a plain queue ----

  function After(contents: seq<string>, op: Op): seq<string> {
    match op
    case Put(blob, _, _) => contents + [blob]
    case GiveUp => contents
    case Pause(_) => contents
    case Take(_) => if |contents| == 0 then [] else contents[1..]
  }

  function AfterAll(contents: seq<string>, ops: seq<Op>): seq<string> {
    if |ops| == 0 then contents else After(AfterAll(contents, ops[..|ops| - 1]), ops[|ops| - 1])
  }

  // What the takes answer, in order.
  function Answers(contents: seq<string>, ops: seq<Op>): seq<Option<string>> {
    if |ops| == 0 then []
    else
      var before := AfterAll(contents, ops[..|ops| - 1]);
      Answers(contents, ops[..|ops| - 1])
      + if ops[|ops| - 1].Take? then [if |before| == 0 then None else Some(before[0])] else []
  }

  // ---- the plain queue is first in, first out ----

  function Puts(ops: seq<Op>): seq<string> {
    if |ops| == 0 then []
    else Puts(ops[..|ops| - 1]) + if ops[|ops| - 1].Put? then [ops[|ops| - 1].blob] else []
  }

  function Received(answers: seq<Option<string>>): seq<string> {
    if |answers| == 0 then []
    else Received(answers[..|answers| - 1])
         + if answers[|answers| - 1].Some? then [answers[|answers| - 1].value] else []
  }

  lemma ReceivedOneMore(answers: seq<Option<string>>, a: Option<string>)
    ensures Received(answers + [a]) == Received(answers) + if a.Some? then [a.value] else []
  {
    assert (answers + [a])[..|answers|] == answers;
  }

  function Taken(contents: seq<string>, op: Op): seq<string> {
    if op.Take? && |contents| > 0 then [contents[0]] else []
  }

  lemma ReceivedStep(contents: seq<string>, ops: seq<Op>)
    requires |ops| > 0
    ensures var n := |ops| - 1;
      Received(Answers(contents, ops))
      == Received(Answers(contents, ops[..n])) + Taken(AfterAll(contents, ops[..n]), ops[n])
  {
    var n := |ops| - 1;
    var here, answers := AfterAll(contents, ops[..n]), Answers(contents, ops[..n]);
    if ops[n].Take? {
      ReceivedOneMore(answers, if |here| == 0 then None else Some(here[0]));
    } else {
      assert answers + [] == answers;
    }
  }

  lemma InOrderStep(received: seq<string>, here: seq<string>, total: seq<string>, op: Op)
    requires received + here == total
    ensures (received + Taken(here, op)) + After(here, op) == total + if op.Put? then [op.blob] else []
  {
  }

  // What was received, followed by what is left, is what was there and what was put.
  lemma {:induction false} FirstInFirstOut(contents: seq<string>, ops: seq<Op>)
    ensures Received(Answers(contents, ops)) + AfterAll(contents, ops) == contents + Puts(ops)
  {
    if |ops| > 0 {
      var n := |ops| - 1;
      FirstInFirstOut(contents, ops[..n]);
      ReceivedStep(contents, ops);
      var received, here := Received(Answers(contents, ops[..n])), AfterAll(contents, ops[..n]);
      InOrderStep(received, here, contents + Puts(ops[..n]), ops[n]);
      assert contents + Puts(ops) == (contents + Puts(ops[..n])) + if ops[n].Put? then [ops[n].blob] else [];
    }
  }

  // ---- the queue service ----

  method Perform(q: Queue, op: Op) returns (answer: Option<string>)
    requires FifoOk(q.config, q.View()) && AllVisible(q.View(), q.now)
    modifies q
    ensures FifoOk(q.config, q.View()) && AllVisible(q.View(), q.now)
    ensures Contents(q.View()) == After(old(Contents(q.View())), op)
    ensures op.Take? ==> answer == if |old(Contents(q.View()))| == 0 then None else Some(old(Contents(q.View()))[0])
  {
    answer := None;
    match op
    case Put(blob, tag, pause) =>
      var index := q.Enqueue(blob, tag, 0);
      q.Tick(pause + 1);
    case GiveUp =>
      var index := q.Abandon();
    case Pause(millis) =>
      q.Tick(millis);
    case Take(duration) =>
      ghost var was := Contents(q.View());
      answer := q.Dequeue(duration);
      if answer.Some? { assert was == [answer.value] + Contents(q.View()); }
  }

  // For every sequence of operations the service answers what the plain queue answers, and
  // holds what the plain queue holds.
  method PerformAll(q: Queue, ops: seq<Op>) returns (answers: seq<Option<string>>)
    requires FifoOk(q.config, q.View()) && AllVisible(q.View(), q.now)
    modifies q
    ensures FifoOk(q.config, q.View()) && AllVisible(q.View(), q.now)
    ensures answers == Answers(old(Contents(q.View())), ops)
    ensures Contents(q.View()) == AfterAll(old(Contents(q.View())), ops)
  {
    ghost var was := Contents(q.View());
    answers := [];
    var i := 0;
    while i < |ops|
      invariant 0 <= i <= |ops|
      invariant FifoOk(q.config, q.View()) && AllVisible(q.View(), q.now)
      invariant answers == Answers(was, ops[..i])
      invariant Contents(q.View()) == AfterAll(was, ops[..i])
    {
      var answer := Perform(q, ops[i]);
      if ops[i].Take? { answers := answers + [answer]; }
      assert ops[..i + 1][..i] == ops[..i];
      i := i + 1;
    }
    assert ops[..i] == ops;
  }

  // From a new queue: the payloads received are a prefix of the payloads put, in order.
  method PerformFromNew(config: Config, now: int, ops: seq<Op>) returns (answers: seq<Option<string>>)
    ensures answers == Answers([], ops)
    ensures Received(answers) <= Puts(ops)
  {
    var q := new Queue(config, now);
    assert StartOf(config.bucketSize, 0) == 0;
    answers := PerformAll(q, ops);
    FirstInFirstOut([], ops);
    assert [] + Puts(ops) == Puts(ops);
  }
}
