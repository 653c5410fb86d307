// From compiled programs to one generated script: every nested program becomes a function,
// and a program that equals an earlier one gets the function of that one.
module Linking {
  import opened Wrappers
  import opened Opcodes
  import opened ProgramSharing
  import opened SharedReturn

  // The script's functions: a place is a placeholder, or the program a function was
  // generated for and its code, with the functions of its nested programs in place.
  datatype Slot = Empty | Made(environment: Compiled, code: Compiled)

  // matchExistingProgram
  function Match(t: seq<Slot>, child: Compiled, from: nat): (r: Option<nat>)
    requires from <= |t|
    ensures r.Some? ==> from <= r.value < |t| && t[r.value].Made? && Equals(t[r.value].environment, child)
    ensures r.None? ==> forall i :: from <= i < |t| && t[i].Made? ==> !Equals(t[i].environment, child)
    decreases |t| - from
  {
    if from == |t| then None
    else if t[from].Made? && Equals(t[from].environment, child) then Some(from)
    else Match(t, child, from + 1)
  }

  // Assigning to an element of an array beyond its end extends it.
  function Assign(t: seq<Slot>, i: nat, s: Slot): seq<Slot> {
    if i < |t| then t[i := s] else t + seq(i - |t|, _ => Empty) + [s]
  }

  datatype Linked = Linked(index: nat, code: Compiled, table: seq<Slot>)

  datatype LinkedAll = LinkedAll(indices: seq<nat>, codes: seq<Compiled>, table: seq<Slot>)

  // One turn of compileChildren's loop.
  function LinkOne(k: Compiled, t: seq<Slot>): Linked
    decreases k, 1
  {
    match Match(t, k, 0)
    case Some(i) => Linked(i, t[i].code, t)
    case None =>
      var index := |t| + 1;
      var kids := LinkAll(k.children, t + [Empty]);
      var code := k.(children := kids.codes);
      Linked(index, code, Assign(kids.table, index, Made(k, code)))
  }

  function LinkAll(ks: seq<Compiled>, t: seq<Slot>): (r: LinkedAll)
    ensures |r.codes| == |ks| && |r.indices| == |ks|
    decreases ks, 0
  {
    if |ks| == 0 then LinkedAll([], [], t)
    else
      var before := LinkAll(ks[..|ks| - 1], t);
      var last := LinkOne(ks[|ks| - 1], before.table);
      LinkedAll(before.indices + [last.index], before.codes + [last.code], last.table)
  }

  // A template with every nested program replaced by the one whose function it calls.
  function Link(c: Compiled): Compiled { c.(children := LinkAll(c.children, []).codes) }

  // ---- equal code ----

  lemma {:induction false} EqualsItself(a: Compiled)
    ensures Equals(a, a)
    decreases a
  {
    forall i | 0 <= i < |a.children| ensures Equals(a.children[i], a.children[i]) { EqualsItself(a.children[i]); }
  }

  lemma {:induction false} EqualsSwaps(a: Compiled, b: Compiled)
    requires Equals(a, b)
    ensures Equals(b, a)
    decreases a
  {
    forall i | 0 <= i < |a.children| ensures Equals(b.children[i], a.children[i]) {
      EqualsSwaps(a.children[i], b.children[i]);
    }
  }

  lemma {:induction false} EqualsChains(a: Compiled, b: Compiled, c: Compiled)
    requires Equals(a, b) && Equals(b, c)
    ensures Equals(a, c)
    decreases a
  {
    forall i | 0 <= i < |a.children| ensures Equals(a.children[i], c.children[i]) {
      EqualsChains(a.children[i], b.children[i], c.children[i]);
    }
  }

  // The number of programs, which equal code determines.
  function Size(c: Compiled): nat
    decreases c, 1
  {
    1 + Sizes(c.children)
  }

  function Sizes(ks: seq<Compiled>): nat
    decreases ks, 0
  {
    if |ks| == 0 then 0 else Sizes(ks[..|ks| - 1]) + Size(ks[|ks| - 1])
  }

  lemma {:induction false} EqualSize(a: Compiled, b: Compiled)
    requires Equals(a, b)
    ensures Size(a) == Size(b)
    decreases a, 1
  {
    EqualSizes(a.children, b.children);
  }

  lemma {:induction false} EqualSizes(a: seq<Compiled>, b: seq<Compiled>)
    requires |a| == |b| && forall i :: 0 <= i < |a| ==> Equals(a[i], b[i])
    ensures Sizes(a) == Sizes(b)
    decreases a, 0
  {
    if |a| > 0 {
      EqualSizes(a[..|a| - 1], b[..|b| - 1]);
      EqualSize(a[|a| - 1], b[|b| - 1]);
    }
  }

  // ---- nested programs ----

  // x is one of the programs, or nested in one of them at any level.
  predicate Below(ks: seq<Compiled>, x: Compiled)
    decreases ks
  {
    exists i :: 0 <= i < |ks| && (ks[i] == x || Below(ks[i].children, x))
  }

  lemma BelowPart(ks: seq<Compiled>, n: nat, x: Compiled)
    requires 0 < |ks| == n + 1
    ensures Below(ks, x) <==> Below(ks[..n], x) || ks[n] == x || Below(ks[n].children, x)
  {
    if Below(ks[..n], x) {
      var i :| 0 <= i < n && (ks[..n][i] == x || Below(ks[..n][i].children, x));
      assert ks[i] == ks[..n][i];
    }
    if Below(ks, x) {
      var i :| 0 <= i < |ks| && (ks[i] == x || Below(ks[i].children, x));
      if i < n { assert ks[i] == ks[..n][i]; }
    }
  }

  lemma {:induction false} BelowChains(ks: seq<Compiled>, x: Compiled, y: Compiled)
    requires Below(ks, x) && Below(x.children, y)
    ensures Below(ks, y)
    decreases ks
  {
    var i :| 0 <= i < |ks| && (ks[i] == x || Below(ks[i].children, x));
    if ks[i] != x { BelowChains(ks[i].children, x, y); }
  }

  lemma {:induction false} BelowIsSmaller(ks: seq<Compiled>, x: Compiled)
    requires Below(ks, x)
    ensures Size(x) <= Sizes(ks)
    decreases ks
  {
    var n := |ks| - 1;
    BelowPart(ks, n, x);
    if Below(ks[..n], x) {
      BelowIsSmaller(ks[..n], x);
    } else if ks[n] != x {
      BelowIsSmaller(ks[n].children, x);
    }
  }

  // ---- the table ----

  // Places are never given up, and the name a nested program is called by means the code
  // it was linked to, generated for a program with equal code.
  lemma {:induction false} OneResolves(k: Compiled, t: seq<Slot>)
    ensures var r := LinkOne(k, t);
      && t <= r.table && r.index < |r.table| && r.table[r.index].Made?
      && r.table[r.index].code == r.code && Equals(r.table[r.index].environment, k)
    decreases k, 1
  {
    if Match(t, k, 0).None? {
      AllResolve(k.children, t + [Empty]);
      EqualsItself(k);
    }
  }

  lemma {:induction false} AllResolve(ks: seq<Compiled>, t: seq<Slot>)
    ensures var r := LinkAll(ks, t);
      && t <= r.table
      && forall i :: 0 <= i < |ks| ==>
           r.indices[i] < |r.table| && r.table[r.indices[i]].Made?
           && r.table[r.indices[i]].code == r.codes[i] && Equals(r.table[r.indices[i]].environment, ks[i])
    decreases ks, 0
  {
    if |ks| > 0 {
      AllResolve(ks[..|ks| - 1], t);
      OneResolves(ks[|ks| - 1], LinkAll(ks[..|ks| - 1], t).table);
    }
  }

  predicate FromBelow(ks: seq<Compiled>, s: Slot) { s.Made? ==> Below(ks, s.environment) }

  lemma {:induction false} NewFromOne(k: Compiled, t: seq<Slot>)
    ensures var r := LinkOne(k, t);
      forall i :: |t| <= i < |r.table| && r.table[i].Made? ==>
        r.table[i].environment == k || Below(k.children, r.table[i].environment)
    decreases k, 1
  {
    if Match(t, k, 0).None? {
      NewFromAll(k.children, t + [Empty]);
      AllResolve(k.children, t + [Empty]);
      var kids := LinkAll(k.children, t + [Empty]).table;
      assert kids[|t|] == Empty && forall i :: |t| < i < |kids| ==> FromBelow(k.children, kids[i]);
    }
  }

  lemma {:induction false} NewFromAll(ks: seq<Compiled>, t: seq<Slot>)
    ensures forall i :: |t| <= i < |LinkAll(ks, t).table| ==> FromBelow(ks, LinkAll(ks, t).table[i])
    decreases ks, 0
  {
    if |ks| > 0 {
      var n := |ks| - 1;
      var before := LinkAll(ks[..n], t).table;
      NewFromAll(ks[..n], t);
      NewFromOne(ks[n], before);
      OneResolves(ks[n], before);
      var after := LinkOne(ks[n], before).table;
      forall i | |t| <= i < |after| && after[i].Made? ensures FromBelow(ks, after[i]) {
        var x := after[i].environment;
        if i < |before| {
          assert FromBelow(ks[..n], before[i]);
          assert before[i] == after[i];
        } else {
          assert x == ks[n] || Below(ks[n].children, x);
        }
        BelowPart(ks, n, x);
      }
    }
  }

  // No two functions are generated for programs with equal code, so it does not matter in
  // which order the table is searched.
  predicate Different(t: seq<Slot>) {
    forall i, j :: 0 <= i < j < |t| && t[i].Made? && t[j].Made? ==> !Equals(t[i].environment, t[j].environment)
  }

  lemma {:induction false} OneStaysDifferent(k: Compiled, t: seq<Slot>)
    requires Different(t)
    ensures Different(LinkOne(k, t).table)
    decreases k, 1
  {
    if Match(t, k, 0).None? {
      AllStayDifferent(k.children, t + [Empty]);
      AllResolve(k.children, t + [Empty]);
      var before, r := LinkAll(k.children, t + [Empty]).table, LinkOne(k, t);
      forall j | 0 <= j < |before| && before[j].Made?
        ensures !Equals(before[j].environment, k) && !Equals(k, before[j].environment)
      {
        NotMade(k, t, j);
      }
      forall i, j | 0 <= i < j < |r.table| && r.table[i].Made? && r.table[j].Made?
        ensures !Equals(r.table[i].environment, r.table[j].environment)
      {
        if i != r.index { assert r.table[i] == before[i]; }
        if j != r.index { assert r.table[j] == before[j]; }
      }
    }
  }

  lemma NotMade(k: Compiled, t: seq<Slot>, j: nat)
    requires Match(t, k, 0).None?
    requires var before := LinkAll(k.children, t + [Empty]).table; j < |before| && before[j].Made?
    ensures var e := LinkAll(k.children, t + [Empty]).table[j].environment; !Equals(e, k) && !Equals(k, e)
  {
    var before := LinkAll(k.children, t + [Empty]).table;
    var e := before[j].environment;
    AllResolve(k.children, t + [Empty]);
    NewFromAll(k.children, t + [Empty]);
    if Equals(k, e) { EqualsSwaps(k, e); }
    if Equals(e, k) {
      if j > |t| {
        BelowIsSmaller(k.children, e);
        EqualSize(e, k);
      } else {
        assert before[j] == (t + [Empty])[j];
      }
    }
  }

  lemma {:induction false} AllStayDifferent(ks: seq<Compiled>, t: seq<Slot>)
    requires Different(t)
    ensures Different(LinkAll(ks, t).table)
    decreases ks, 0
  {
    if |ks| > 0 {
      AllStayDifferent(ks[..|ks| - 1], t);
      OneStaysDifferent(ks[|ks| - 1], LinkAll(ks[..|ks| - 1], t).table);
    }
  }

  // ---- programs with equal code that may stand for each other ----

  predicate Swappable(a: Compiled, b: Compiled) { Equals(a, b) && Interchangeable(a, b) }

  lemma {:induction false} SwappableItself(a: Compiled)
    ensures Swappable(a, a)
    decreases a
  {
    EqualsItself(a);
    forall i | 0 <= i < |a.children| ensures Interchangeable(a.children[i], a.children[i]) {
      SwappableItself(a.children[i]);
    }
  }

  lemma {:induction false} SwappableSwaps(a: Compiled, b: Compiled)
    requires Swappable(a, b)
    ensures Swappable(b, a)
    decreases a
  {
    EqualsSwaps(a, b);
    forall i | 0 <= i < |a.children| ensures Interchangeable(b.children[i], a.children[i]) {
      SwappableSwaps(a.children[i], b.children[i]);
    }
  }

  lemma {:induction false} SwappableChains(a: Compiled, b: Compiled, c: Compiled)
    requires Swappable(a, b) && Swappable(b, c)
    ensures Swappable(a, c)
    decreases a
  {
    EqualsChains(a, b, c);
    forall i | 0 <= i < |a.children| ensures Interchangeable(a.children[i], c.children[i]) {
      SwappableChains(a.children[i], b.children[i], c.children[i]);
    }
  }

  lemma {:induction false} Corresponding(a: seq<Compiled>, b: seq<Compiled>, x: Compiled) returns (y: Compiled)
    requires |a| == |b| && forall i :: 0 <= i < |a| ==> Swappable(a[i], b[i])
    requires Below(a, x)
    ensures Below(b, y) && Swappable(x, y)
    decreases a
  {
    var i :| 0 <= i < |a| && (a[i] == x || Below(a[i].children, x));
    assert Swappable(a[i], b[i]);
    if a[i] == x {
      y := b[i];
    } else {
      y := Corresponding(a[i].children, b[i].children, x);
    }
  }

  // Any two nested programs with equal code may stand for each other.
  ghost predicate Sharable(c: Compiled) {
    forall x, y :: Below(c.children, x) && Below(c.children, y) && Equals(x, y) ==> Interchangeable(x, y)
  }

  // Every function stands for the program it was generated for.
  ghost predicate Sound(t: seq<Slot>) {
    forall i :: 0 <= i < |t| && t[i].Made? ==> Swappable(t[i].environment, t[i].code)
  }

  // ---- from sharable programs to a sound script ----

  lemma {:induction false} OneIsSound(c: Compiled, k: Compiled, t: seq<Slot>)
    requires Sharable(c) && Below(c.children, k) && Sound(t)
    requires forall i :: 0 <= i < |t| ==> FromBelow(c.children, t[i])
    ensures Swappable(k, LinkOne(k, t).code) && Sound(LinkOne(k, t).table)
    decreases k, 1
  {
    match Match(t, k, 0)
    case Some(i) =>
      var e := t[i].environment;
      assert FromBelow(c.children, t[i]);
      SwappableSwaps(e, k);
      SwappableChains(k, e, t[i].code);
    case None =>
      forall i | 0 <= i < |k.children| ensures Below(c.children, k.children[i]) {
        assert Below(k.children, k.children[i]);
        BelowChains(c.children, k, k.children[i]);
      }
      AllAreSound(c, k.children, t + [Empty]);
  }

  lemma {:induction false} AllAreSound(c: Compiled, ks: seq<Compiled>, t: seq<Slot>)
    requires Sharable(c) && Sound(t) && forall i :: 0 <= i < |ks| ==> Below(c.children, ks[i])
    requires forall i :: 0 <= i < |t| ==> FromBelow(c.children, t[i])
    ensures forall i :: 0 <= i < |ks| ==> Swappable(ks[i], LinkAll(ks, t).codes[i])
    ensures Sound(LinkAll(ks, t).table)
    decreases ks, 0
  {
    if |ks| > 0 {
      var n := |ks| - 1;
      AllAreSound(c, ks[..n], t);
      StillFromBelow(c, ks[..n], t);
      OneIsSound(c, ks[n], LinkAll(ks[..n], t).table);
      forall i | 0 <= i < |ks| ensures Swappable(ks[i], LinkAll(ks, t).codes[i]) {
        if i < n { assert Swappable(ks[..n][i], LinkAll(ks[..n], t).codes[i]); }
      }
    }
  }

  lemma StillFromBelow(c: Compiled, ks: seq<Compiled>, t: seq<Slot>)
    requires forall i :: 0 <= i < |ks| ==> Below(c.children, ks[i])
    requires forall i :: 0 <= i < |t| ==> FromBelow(c.children, t[i])
    ensures forall i :: 0 <= i < |LinkAll(ks, t).table| ==> FromBelow(c.children, LinkAll(ks, t).table[i])
  {
    var r := LinkAll(ks, t).table;
    AllResolve(ks, t);
    NewFromAll(ks, t);
    forall i | 0 <= i < |r| ensures FromBelow(c.children, r[i]) {
      if i < |t| {
        assert r[i] == t[i];
      } else if r[i].Made? {
        var x := r[i].environment;
        assert FromBelow(ks, r[i]);
        var j :| 0 <= j < |ks| && (ks[j] == x || Below(ks[j].children, x));
        assert Below(c.children, ks[j]);
        if ks[j] != x { BelowChains(c.children, ks[j], x); }
      }
    }
  }

  // ---- and back ----

  // Some function was generated for a program x may stand for.
  ghost predicate Covered(t: seq<Slot>, x: Compiled) {
    exists i :: 0 <= i < |t| && t[i].Made? && Swappable(x, t[i].environment)
  }

  ghost predicate AllCovered(t: seq<Slot>, ks: seq<Compiled>) { forall x :: Below(ks, x) ==> Covered(t, x) }

  ghost predicate Closed(t: seq<Slot>) {
    forall i :: 0 <= i < |t| && t[i].Made? ==> AllCovered(t, t[i].environment.children)
  }

  lemma CoveredMore(t: seq<Slot>, more: seq<Slot>, ks: seq<Compiled>)
    requires forall i :: 0 <= i < |t| && t[i].Made? ==> i < |more| && more[i] == t[i]
    requires AllCovered(t, ks)
    ensures AllCovered(more, ks)
  {
    forall x | Below(ks, x) ensures Covered(more, x) {
      assert Covered(t, x);
      var i :| 0 <= i < |t| && t[i].Made? && Swappable(x, t[i].environment);
      assert more[i] == t[i];
    }
  }

  lemma CoveredBySame(t: seq<Slot>, a: Compiled, b: Compiled)
    requires Swappable(a, b) && AllCovered(t, b.children)
    ensures AllCovered(t, a.children)
  {
    forall x | Below(a.children, x) ensures Covered(t, x) {
      var y := Corresponding(a.children, b.children, x);
      assert Covered(t, y);
      var i :| 0 <= i < |t| && t[i].Made? && Swappable(y, t[i].environment);
      SwappableChains(x, y, t[i].environment);
    }
  }

  lemma {:induction false} OneCovers(k: Compiled, t: seq<Slot>)
    requires Sound(t) && Closed(t) && Swappable(k, LinkOne(k, t).code)
    ensures var r := LinkOne(k, t);
      Sound(r.table) && Closed(r.table) && Covered(r.table, k) && AllCovered(r.table, k.children)
    decreases k, 1
  {
    var r := LinkOne(k, t);
    match Match(t, k, 0)
    case Some(i) =>
      var e := t[i].environment;
      SwappableSwaps(e, t[i].code);
      SwappableChains(k, t[i].code, e);
      CoveredBySame(t, k, e);
    case None =>
      OneMadeCovers(k, t);
  }

  lemma {:induction false} OneMadeCovers(k: Compiled, t: seq<Slot>)
    requires Sound(t) && Closed(t) && Swappable(k, LinkOne(k, t).code) && Match(t, k, 0).None?
    ensures var r := LinkOne(k, t);
      Sound(r.table) && Closed(r.table) && Covered(r.table, k) && AllCovered(r.table, k.children)
    decreases k, 0
  {
    var r, start := LinkOne(k, t), t + [Empty];
    var kids := LinkAll(k.children, start);
    AllResolve(k.children, start);
    StillClosed(t);
    AllCover(k.children, start);
    AllPush(k.children, start);
    Filled(kids.table, r.index, Made(k, r.code));
  }

  lemma {:induction false} AllCover(ks: seq<Compiled>, t: seq<Slot>)
    requires Sound(t) && Closed(t) && forall i :: 0 <= i < |ks| ==> Swappable(ks[i], LinkAll(ks, t).codes[i])
    ensures var r := LinkAll(ks, t).table; Sound(r) && Closed(r) && AllCovered(r, ks)
    decreases ks, 0
  {
    if |ks| > 0 {
      var n := |ks| - 1;
      var before, r := LinkAll(ks[..n], t), LinkAll(ks, t).table;
      forall i | 0 <= i < n ensures Swappable(ks[..n][i], before.codes[i]) {
        assert Swappable(ks[i], LinkAll(ks, t).codes[i]);
      }
      assert Swappable(ks[n], LinkAll(ks, t).codes[n]);
      AllCover(ks[..n], t);
      OneCovers(ks[n], before.table);
      OneResolves(ks[n], before.table);
      CoveredMore(before.table, r, ks[..n]);
      forall x | Below(ks, x) ensures Covered(r, x) { BelowPart(ks, n, x); }
    }
  }

  // Filling a placeholder.
  lemma Filled(t: seq<Slot>, i: nat, s: Slot)
    requires Sound(t) && Closed(t) && (i < |t| ==> t[i] == Empty)
    requires s.Made? && Swappable(s.environment, s.code) && AllCovered(t, s.environment.children)
    ensures var more := Assign(t, i, s);
      Sound(more) && Closed(more) && Covered(more, s.environment) && AllCovered(more, s.environment.children)
  {
    var more := Assign(t, i, s);
    assert forall j :: 0 <= j < |t| && t[j].Made? ==> j < |more| && more[j] == t[j];
    SwappableItself(s.environment);
    assert more[i] == s;
    CoveredMore(t, more, s.environment.children);
    forall j | 0 <= j < |more| && more[j].Made? ensures AllCovered(more, more[j].environment.children) {
      if j != i { CoveredMore(t, more, t[j].environment.children); }
    }
  }

  // The first new place is a placeholder.
  lemma {:induction false} OnePushes(k: Compiled, t: seq<Slot>)
    ensures var r := LinkOne(k, t).table; |r| > |t| ==> r[|t|] == Empty
  {
    if Match(t, k, 0).None? { AllResolve(k.children, t + [Empty]); }
  }

  lemma {:induction false} AllPush(ks: seq<Compiled>, t: seq<Slot>)
    ensures var r := LinkAll(ks, t).table; |r| > |t| ==> r[|t|] == Empty
  {
    if |ks| > 0 {
      var before := LinkAll(ks[..|ks| - 1], t).table;
      AllPush(ks[..|ks| - 1], t);
      OnePushes(ks[|ks| - 1], before);
      AllResolve(ks[..|ks| - 1], t);
      OneResolves(ks[|ks| - 1], before);
    }
  }

  lemma StillClosed(t: seq<Slot>)
    requires Closed(t) && Sound(t)
    ensures Closed(t + [Empty]) && Sound(t + [Empty])
  {
    var more := t + [Empty];
    forall i | 0 <= i < |more| && more[i].Made? ensures AllCovered(more, more[i].environment.children) {
      assert more[i] == t[i];
      CoveredMore(t, more, t[i].environment.children);
    }
  }
}
