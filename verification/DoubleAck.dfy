// A row acked twice.  The ack statement compares versions only, so a client that presents
// a version no delivery issued can ack a row that was never delivered, and then ack it
// again with the version its own ack wrote.
module DoubleAck {
  import opened Tables
  import opened RowLog
  import opened Machine
  import opened QueueTheorems
  import opened Scenes

  lemma OneMessage(config: Config, now: int) returns (s: State)
    ensures Reachable(s) && s.procs == [Idle] && s.w.config == config
    ensures s.w.store.rows == map[0 := NewRow("payload", TAG, now)]
    ensures s.w.log == map[0 := [Entry(NewRow("payload", TAG, now), Inserted, now, now, 0, 0)]] && s.w.now == now
  {
    s := Begins(config, now, 1);
    s := Allocates(s, 0, "payload", 0);
    s := Inserts(s, 0, "payload", 0, 0);
  }

  // For every configuration: a reachable state in which a client has acked one row twice,
  // and its version is not deliveryCount + 2.
  lemma RowsCanBeAckedTwice(config: Config, now: int) returns (s: State)
    ensures Reachable(s) && s.w.config == config && 0 in s.w.store.rows && 0 in s.w.log
    ensures var log := s.w.log[0];
      && |log| == 3 && log[1].kind == ClientAcked && log[2].kind == ClientAcked
      && log[1].row.acked && ReAcked(log)
    ensures var row := s.w.store.rows[0];
      row.acked && row.deliveryCount == 0 && row.version != row.deliveryCount + 1 + 1
  {
    var a := OneMessage(config, now);
    var b := AcksMessage(a, 0, 0);
    s := AcksMessage(b, 0, 0);
    assert ReAckAt(s.w.log[0], 2);
  }
}
