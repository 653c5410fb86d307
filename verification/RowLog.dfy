// The life of one message row.  Every statement that changes a row bumps its version
// by one, so the successive values of a row form a log in which entry k has version
// k + 1.  The machine keeps such a log per row as history; the laws about versions,
// leases and receipts are laws about well-formed logs.
module RowLog {
  import opened Tables

  datatype Kind = Inserted | Consumed(duration: int) | ClientAcked | RepairAcked

  // A value the row took, why, the clock reading the client computed with, the time the
  // statement was applied, the process that ran it, and how many consumes and acks had
  // been applied to any row before it.
  datatype Entry = Entry(row: Row, kind: Kind, clock: int, at: int, writer: nat, bump: nat)

  predicate IsAck(e: Entry) { e.kind.ClientAcked? || e.kind.RepairAcked? }

  predicate FreshRow(row: Row) {
    row.version == 1 && !row.acked && row.deliveryCount == 0
  }

  // What one applied statement may do to the row.
  predicate Follows(a: Entry, b: Entry) {
    && a.at <= b.clock <= b.at
    && match b.kind
       case Inserted => false
       case Consumed(duration) =>
         && !a.row.acked
         && a.row.nextVisible < b.clock
         && b.row == ConsumedRow(a.row, a.row, b.clock + duration)
       case ClientAcked => b.row == AckedRow(a.row, a.row)
       case RepairAcked => !a.row.acked && a.row.deliveryCount == 0 && b.row == AckedRow(a.row, a.row)
  }

  predicate ValidLog(log: seq<Entry>) {
    && |log| >= 1
    && log[0].kind == Inserted && FreshRow(log[0].row) && log[0].clock <= log[0].at
    && forall k :: 0 < k < |log| ==> FollowsAt(log, k)
  }

  predicate FollowsAt(log: seq<Entry>, k: int)
    requires 0 < k < |log|
  {
    Follows(log[k - 1], log[k])
  }

  function Last(log: seq<Entry>): Entry
    requires |log| >= 1
  {
    log[|log| - 1]
  }

  function Acks(log: seq<Entry>): nat {
    if |log| == 0 then 0 else Acks(log[..|log| - 1]) + if IsAck(Last(log)) then 1 else 0
  }

  lemma {:induction false} PrefixIsValid(log: seq<Entry>, n: nat)
    requires ValidLog(log) && 1 <= n <= |log|
    ensures ValidLog(log[..n])
  {
    forall k | 0 < k < n ensures FollowsAt(log[..n], k) {
      assert FollowsAt(log, k);
    }
  }

  // Appending an entry that follows the last one keeps a log well formed.
  lemma AppendIsValid(log: seq<Entry>, e: Entry)
    requires ValidLog(log) && Follows(Last(log), e)
    ensures ValidLog(log + [e])
  {
    var l := log + [e];
    forall k | 0 < k < |l| ensures FollowsAt(l, k) {
      if k < |log| { assert FollowsAt(log, k); }
    }
  }

  // The version law: the version counts the insert, the deliveries and the acks.
  lemma {:induction false} VersionLaw(log: seq<Entry>)
    requires ValidLog(log)
    ensures var row := Last(log).row;
      && row.version == |log|
      && row.version == 1 + row.deliveryCount + Acks(log)
      && row.deliveryCount >= 0
      && (row.acked <==> Acks(log) > 0)
    decreases |log|
  {
    var n := |log| - 1;
    if n > 0 {
      PrefixIsValid(log, n);
      VersionLaw(log[..n]);
      assert FollowsAt(log, n);
      assert Last(log[..n]) == log[n - 1];
    } else {
      assert log[..0] == [];
      assert Acks(log) == 0;
    }
  }

  lemma VersionIsPosition(log: seq<Entry>, k: nat)
    requires ValidLog(log) && k < |log|
    ensures log[k].row.version == k + 1 && log[k].row.deliveryCount >= 0
    ensures log[k].row.deliveryCount == 0 && !log[k].row.acked ==> k == 0
  {
    PrefixIsValid(log, k + 1);
    assert Last(log[..k + 1]) == log[k];
    VersionLaw(log[..k + 1]);
  }

  // Delivery counts never fall, acks are never undone, the payload never changes and
  // after an ack nothing but acks happens: an acked row is never delivered again.
  lemma {:induction false} OnlyForward(log: seq<Entry>, a: nat, b: nat)
    requires ValidLog(log) && a <= b < |log|
    ensures log[a].row.deliveryCount <= log[b].row.deliveryCount
    ensures log[a].row.blob == log[b].row.blob && log[a].row.tag == log[b].row.tag
    ensures log[a].row.acked ==> log[b].row.acked && log[b].row.deliveryCount == log[a].row.deliveryCount
    ensures log[a].row.acked && a < b ==> IsAck(log[b])
    ensures log[a].clock <= log[b].clock && log[a].at <= log[b].at
    ensures a < b ==> log[a].at <= log[b].clock
    decreases b - a
  {
    PrefixIsValid(log, 1);
    if a < b {
      OnlyForward(log, a, b - 1);
      assert FollowsAt(log, b);
    }
    LogClock(log, a);
  }

  lemma LogClock(log: seq<Entry>, k: nat)
    requires ValidLog(log) && k < |log|
    ensures log[k].clock <= log[k].at
  {
    if k > 0 { assert FollowsAt(log, k); }
  }

  // Lease exclusivity: a later lease of the same message starts strictly after every
  // earlier one has run out.
  lemma LeasesAreDisjoint(log: seq<Entry>, a: nat, b: nat)
    requires ValidLog(log) && a < b < |log| && log[a].kind.Consumed? && log[b].kind.Consumed?
    ensures log[a].row.nextVisible == log[a].clock + log[a].kind.duration
    ensures log[a].clock + log[a].kind.duration < log[b].clock
  {
    if a > 0 { assert FollowsAt(log, a); }
    assert FollowsAt(log, a + 1);
    OnlyForward(log, a + 1, b);
  }

  // A receipt names the version its consume wrote.
  predicate Issued(log: seq<Entry>, version: int) {
    1 < version <= |log| && log[version - 1].kind.Consumed?
  }

  // Receipt fencing.  The ack of an issued receipt is the row's first ack, it comes
  // right after the consume that issued the receipt, and nothing is consumed after it.
  lemma IssuedReceiptFences(log: seq<Entry>, a: nat)
    requires ValidLog(log) && 0 < a < |log| && IsAck(log[a]) && Issued(log, a)
    ensures forall k :: 0 <= k < a ==> !log[k].row.acked
    ensures forall k :: a < k < |log| ==> !log[k].kind.Consumed?
  {
    assert FollowsAt(log, a);
    assert a >= 2 && FollowsAt(log, a - 1);
    forall k | 0 <= k < a ensures !log[k].row.acked {
      OnlyForward(log, k, a - 1);
    }
    forall k | a < k < |log| ensures !log[k].kind.Consumed? {
      OnlyForward(log, a, k);
    }
  }

  // A message is acked at most once by issued receipts: two such acks are the same.
  lemma AckedAtMostOnce(log: seq<Entry>, a: nat, b: nat)
    requires ValidLog(log) && 0 < a < |log| && 0 < b < |log|
    requires IsAck(log[a]) && Issued(log, a) && IsAck(log[b]) && Issued(log, b)
    ensures a == b
  {
    IssuedReceiptFences(log, a);
    IssuedReceiptFences(log, b);
  }

  // The ack at k presented version k, which entry k - 1 wrote: here that entry is an ack.
  predicate ReAckAt(log: seq<Entry>, k: int)
    requires 0 < k < |log|
  {
    IsAck(log[k]) && IsAck(log[k - 1])
  }

  // Some ack of the row presented a version that an ack wrote.
  predicate ReAcked(log: seq<Entry>) { exists k :: 0 < k < |log| && ReAckAt(log, k) }

  // Exactly when an ack re-acks a row that is acked already: the receipt's version was
  // written by an ack, so no consume ever issued it.
  lemma ReAckIffNotFirst(log: seq<Entry>, a: nat)
    requires ValidLog(log) && 0 < a < |log| && IsAck(log[a])
    ensures log[a - 1].row.acked <==> IsAck(log[a - 1])
  {
    if a > 1 { assert FollowsAt(log, a - 1); }
  }

  // A row is acked at most once exactly when no ack presented a version an ack wrote.
  lemma {:induction false} AckedOnceIff(log: seq<Entry>)
    requires ValidLog(log)
    ensures Acks(log) <= 1 <==> !ReAcked(log)
    decreases |log|
  {
    var n := |log| - 1;
    if n == 0 {
      assert log[..0] == [];
      assert Acks(log) == 0;
    } else {
      PrefixIsValid(log, n);
      AckedOnceIff(log[..n]);
      VersionLaw(log[..n]);
      assert FollowsAt(log, n);
      forall k | 0 < k < n ensures ReAckAt(log, k) <==> ReAckAt(log[..n], k) {}
      if IsAck(log[n]) {
        ReAckIffNotFirst(log, n);
        if IsAck(log[n - 1]) { assert ReAckAt(log, n); }
      }
      if ReAcked(log[..n]) {
        var k :| 0 < k < n && ReAckAt(log[..n], k);
        assert ReAckAt(log, k);
      }
    }
  }
}
