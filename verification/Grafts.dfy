// The nested programs of a program, and the program that has others in their place.
module Grafts {
  import opened Wrappers
  import opened Template
  import opened Opcodes
  import opened Emit
  import opened CompilerCorrect

  function Present(q: Option<Program>): seq<Program> { if q.Some? then [q.value] else [] }

  function ProgramsOf(s: Statement): seq<Program> {
    if s.Block? then Present(s.program) + Present(s.inverse) else []
  }

  // The programs right below a list of statements, in the order they are compiled.
  function Programs(ss: seq<Statement>): seq<Program> {
    if |ss| == 0 then [] else Programs(ss[..|ss| - 1]) + ProgramsOf(ss[|ss| - 1])
  }

  function CompileAll(o: Options, ps: seq<Program>): (cs: seq<Compiled>)
    ensures |cs| == |ps| && forall i :: 0 <= i < |ps| ==> cs[i] == CompileProgram(o, ps[i])
  {
    seq(|ps|, i requires 0 <= i < |ps| => CompileProgram(o, ps[i]))
  }

  lemma CompileJoin(o: Options, a: seq<Program>, b: seq<Program>)
    ensures CompileAll(o, a + b) == CompileAll(o, a) + CompileAll(o, b)
  {
  }

  lemma StatementPrograms(o: Options, s: Statement, guid: nat)
    ensures EmitStatement(o, s, guid).children == CompileAll(o, ProgramsOf(s))
  {
    if s.Block? {
      BlockEmits(o, s, guid);
      CompileJoin(o, Present(s.program), Present(s.inverse));
      assert CompileAll(o, Present(s.program)) == EmitChild(o, s.program).children;
      assert CompileAll(o, Present(s.inverse)) == EmitChild(o, s.inverse).children;
    } else if s.Value? {
      HeadChildren(o, s.m, None, None);
    }
  }

  lemma {:induction false} ChildrenOfPrograms(o: Options, ss: seq<Statement>)
    ensures EmitStatements(o, ss).children == CompileAll(o, Programs(ss))
  {
    if |ss| > 0 {
      var n := |ss| - 1;
      ChildrenOfPrograms(o, ss[..n]);
      StatementPrograms(o, ss[n], |EmitStatements(o, ss[..n]).children|);
      CompileJoin(o, Programs(ss[..n]), ProgramsOf(ss[n]));
    }
  }

  lemma {:induction false} ProgramsAreOk(ss: seq<Statement>)
    requires forall s :: s in ss ==> StatementOk(s)
    ensures forall p :: p in Programs(ss) ==> WellFormed(p)
  {
    if |ss| > 0 {
      ProgramsAreOk(ss[..|ss| - 1]);
      assert StatementOk(ss[|ss| - 1]);
    }
  }

  // ---- other programs in their place ----

  function GraftStatement(s: Statement, kids: seq<Program>): Statement
    requires |kids| == |ProgramsOf(s)|
  {
    if s.Block? then
      Block(s.head, if s.program.Some? then Some(kids[0]) else None,
                    if s.inverse.Some? then Some(kids[|kids| - 1]) else None)
    else s
  }

  function Graft(ss: seq<Statement>, kids: seq<Program>): (grafted: seq<Statement>)
    requires |kids| == |Programs(ss)|
    ensures |grafted| == |ss|
  {
    if |ss| == 0 then []
    else var n := |Programs(ss[..|ss| - 1])|;
         Graft(ss[..|ss| - 1], kids[..n]) + [GraftStatement(ss[|ss| - 1], kids[n..])]
  }

  // Programs that need the same depths.
  predicate SameDepths(o: Options, ps: seq<Program>, kids: seq<Program>) {
    |ps| == |kids| && forall i :: 0 <= i < |ps| ==> CompileProgram(o, ps[i]).depths == CompileProgram(o, kids[i]).depths
  }

  lemma ProgramsOfGraft(s: Statement, kids: seq<Program>)
    requires |kids| == |ProgramsOf(s)|
    ensures ProgramsOf(GraftStatement(s, kids)) == kids
  {
  }

  lemma BlockGraft(o: Options, s: Statement, t: Statement, guid: nat)
    requires s.Block? && t.Block? && t.head == s.head
    requires t.program.Some? == s.program.Some? && t.inverse.Some? == s.inverse.Some?
    requires EmitChild(o, t.program).depths == EmitChild(o, s.program).depths
    requires EmitChild(o, t.inverse).depths == EmitChild(o, s.inverse).depths
    ensures EmitStatement(o, t, guid).ops == EmitStatement(o, s, guid).ops
    ensures EmitStatement(o, t, guid).depths == EmitStatement(o, s, guid).depths
  {
    var g1 := if s.program.Some? then Some(guid) else None;
    var g2 := if s.inverse.Some? then Some(guid + if s.program.Some? then 1 else 0) else None;
    var rest := Join(EmitMustache(o, s.head, g1, g2), Ops(EmitBlockTail(o, s.head, g1, g2) + [Append]));
    assert EmitStatement(o, s, guid) == Join(Join(EmitChild(o, s.program), EmitChild(o, s.inverse)), rest);
    assert EmitStatement(o, t, guid) == Join(Join(EmitChild(o, t.program), EmitChild(o, t.inverse)), rest);
  }

  lemma StatementGraft(o: Options, s: Statement, kids: seq<Program>, guid: nat)
    requires SameDepths(o, ProgramsOf(s), kids)
    ensures EmitStatement(o, GraftStatement(s, kids), guid)
         == EmitStatement(o, s, guid).(children := CompileAll(o, kids))
  {
    var t := GraftStatement(s, kids);
    StatementPrograms(o, t, guid);
    ProgramsOfGraft(s, kids);
    if s.Block? {
      if s.program.Some? { assert ProgramsOf(s)[0] == s.program.value && ProgramsOf(t)[0] == t.program.value; }
      if s.inverse.Some? {
        var n := |kids| - 1;
        assert ProgramsOf(s)[n] == s.inverse.value && ProgramsOf(t)[n] == t.inverse.value;
      }
      BlockGraft(o, s, t, guid);
    } else {
      StatementPrograms(o, s, guid);
    }
  }

  lemma {:induction false} StatementsGraft(o: Options, ss: seq<Statement>, kids: seq<Program>)
    requires SameDepths(o, Programs(ss), kids)
    ensures EmitStatements(o, Graft(ss, kids)) == EmitStatements(o, ss).(children := CompileAll(o, kids))
  {
    if |ss| > 0 {
      var init, s := ss[..|ss| - 1], ss[|ss| - 1];
      var n := |Programs(init)|;
      GraftParts(o, ss, kids);
      GraftLast(ss, kids);
      StatementsGraft(o, init, kids[..n]);
      ChildrenOfPrograms(o, init);
      StatementGraft(o, s, kids[n..], n);
      CompileJoin(o, kids[..n], kids[n..]);
      var before, here := EmitStatements(o, init), EmitStatement(o, s, n);
      assert EmitStatements(o, ss) == Join(before, here);
      assert EmitStatements(o, Graft(ss, kids))
          == Join(before.(children := CompileAll(o, kids[..n])), here.(children := CompileAll(o, kids[n..])));
    }
  }

  lemma {:induction false} GraftParts(o: Options, ss: seq<Statement>, kids: seq<Program>)
    requires |ss| > 0 && SameDepths(o, Programs(ss), kids)
    ensures var n := |Programs(ss[..|ss| - 1])|;
      && n <= |kids| && kids[..n] + kids[n..] == kids
      && SameDepths(o, Programs(ss[..|ss| - 1]), kids[..n])
      && SameDepths(o, ProgramsOf(ss[|ss| - 1]), kids[n..])
  {
    DepthsSplit(o, Programs(ss[..|ss| - 1]), ProgramsOf(ss[|ss| - 1]), kids);
  }

  lemma {:induction false} GraftLast(ss: seq<Statement>, kids: seq<Program>)
    requires |ss| > 0 && |kids| == |Programs(ss)|
    ensures var n := |Programs(ss[..|ss| - 1])|;
      && Graft(ss, kids)[..|ss| - 1] == Graft(ss[..|ss| - 1], kids[..n])
      && Graft(ss, kids)[|ss| - 1] == GraftStatement(ss[|ss| - 1], kids[n..])
  {
  }

  lemma {:induction false} DepthsSplit(o: Options, a: seq<Program>, b: seq<Program>, kids: seq<Program>)
    requires SameDepths(o, a + b, kids)
    ensures SameDepths(o, a, kids[..|a|]) && SameDepths(o, b, kids[|a|..])
  {
    forall i | 0 <= i < |a| ensures CompileProgram(o, a[i]).depths == CompileProgram(o, kids[..|a|][i]).depths {
      assert (a + b)[i] == a[i] && kids[..|a|][i] == kids[i];
    }
    forall i | 0 <= i < |b| ensures CompileProgram(o, b[i]).depths == CompileProgram(o, kids[|a|..][i]).depths {
      assert (a + b)[|a| + i] == b[i] && kids[|a|..][i] == kids[|a| + i];
    }
  }

  // A program with others in the place of its nested programs compiles to the same code,
  // with their code in place.
  lemma ProgramGraft(o: Options, p: Program, kids: seq<Program>)
    requires SameDepths(o, Programs(p.statements), kids)
    ensures CompileProgram(o, Program(Graft(p.statements, kids)))
         == CompileProgram(o, p).(children := CompileAll(o, kids))
  {
    StatementsGraft(o, p.statements, kids);
  }

  lemma {:induction false} GraftIsOk(ss: seq<Statement>, kids: seq<Program>)
    requires |kids| == |Programs(ss)| && forall s :: s in ss ==> StatementOk(s)
    requires forall p :: p in kids ==> WellFormed(p)
    ensures forall s :: s in Graft(ss, kids) ==> StatementOk(s)
  {
    if |ss| > 0 {
      var n := |Programs(ss[..|ss| - 1])|;
      GraftIsOk(ss[..|ss| - 1], kids[..n]);
      StatementGraftIsOk(ss[|ss| - 1], kids[n..]);
    }
  }

  lemma StatementGraftIsOk(s: Statement, kids: seq<Program>)
    requires |kids| == |ProgramsOf(s)| && StatementOk(s) && forall p :: p in kids ==> WellFormed(p)
    ensures StatementOk(GraftStatement(s, kids))
  {
  }
}
