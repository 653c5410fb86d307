// Two blocks whose programs have the same code share one function in the generated
// JavaScript: the comparison looks at opcodes and nested programs, not at depth lists nor
// at the number of statements.  The code determines the first, but not the second.
module ProgramSharing {
  import opened Wrappers
  import opened Template
  import opened Opcodes
  import opened Emit
  import opened DepthLists
  import opened CompilerCorrect

  // Compiler.equals
  predicate Equals(a: Compiled, b: Compiled) {
    a.opcodes == b.opcodes && |a.children| == |b.children|
    && forall i :: 0 <= i < |a.children| ==> Equals(a.children[i], b.children[i])
  }

  // ---- the code tells the depths ----

  predicate UsedBelow(d: nat, kids: seq<Compiled>) { exists k :: k in kids && d + 1 in k.depths }

  // The non-zero depths added are those of the contexts selected and those the nested
  // programs need from one level further out.
  ghost predicate Told(e: Emission) {
    forall d: nat :: d != 0 ==> (d in e.depths <==> GetContext(d) in e.ops || UsedBelow(d, e.children))
  }

  lemma JoinTold(a: Emission, b: Emission)
    requires Told(a) && Told(b)
    ensures Told(Join(a, b))
  {
    forall d: nat | d != 0
      ensures d in Join(a, b).depths <==> GetContext(d) in Join(a, b).ops || UsedBelow(d, Join(a, b).children)
    {
      assert UsedBelow(d, a.children + b.children) <==> UsedBelow(d, a.children) || UsedBelow(d, b.children) by {
        if UsedBelow(d, a.children) {
          var k :| k in a.children && d + 1 in k.depths;
          assert k in a.children + b.children;
        }
        if UsedBelow(d, b.children) {
          var k :| k in b.children && d + 1 in k.depths;
          assert k in a.children + b.children;
        }
      }
    }
  }

  lemma {:induction false} LookupsSelectNothing(names: seq<string>, d: nat)
    ensures GetContext(d) !in Lookups(names)
  {
    if |names| > 0 { LookupsSelectNothing(names[..|names| - 1], d); }
  }

  lemma IdTold(id: Id)
    ensures Told(EmitId(id))
  {
    var names := if |id.parts| == 0 then [] else id.parts[1..];
    forall d: nat | d != 0
      ensures d in EmitId(id).depths <==> GetContext(d) in EmitId(id).ops || UsedBelow(d, EmitId(id).children)
    {
      LookupsSelectNothing(names, d);
    }
  }

  lemma ParamTold(p: Param)
    ensures Told(EmitParam(p))
  {
    if p.PathParam? { IdTold(p.id); }
  }

  lemma {:induction false} ParamsTold(ps: seq<Param>)
    ensures Told(EmitParams(ps))
  {
    if |ps| > 0 {
      ParamsTold(ps[1..]);
      ParamTold(ps[0]);
      JoinTold(EmitParams(ps[1..]), EmitParam(ps[0]));
    }
  }

  lemma {:induction false} PairsTold(pairs: seq<(string, Param)>)
    ensures Told(EmitPairs(pairs))
  {
    if |pairs| > 0 {
      var n := |pairs| - 1;
      PairsTold(pairs[..n]);
      ParamTold(pairs[n].1);
      JoinTold(EmitParam(pairs[n].1), Ops([AssignToHash(pairs[n].0)]));
      JoinTold(EmitPairs(pairs[..n]), Join(EmitParam(pairs[n].1), Ops([AssignToHash(pairs[n].0)])));
    }
  }

  lemma HashTold(m: Mustache)
    ensures Told(EmitHash(m))
  {
    if m.hash.Some? {
      PairsTold(m.hash.value);
      JoinTold(EmitPairs(m.hash.value), Ops([PopHash]));
      JoinTold(Ops([PushHash]), Join(EmitPairs(m.hash.value), Ops([PopHash])));
    }
  }

  lemma MustacheTold(o: Options, m: Mustache, g1: Option<nat>, g2: Option<nat>)
    requires IdOk(m.id)
    ensures Told(EmitMustache(o, m, g1, g2))
  {
    match Classify(o, m)
    case HelperKind =>
      var kids := Ops([PushProgram(g1), PushProgram(g2)]);
      var call := Ops([Invoke(o, |m.params|, Name(m))]);
      ParamsTold(m.params);
      HashTold(m);
      JoinTold(EmitHash(m), call);
      JoinTold(kids, Join(EmitHash(m), call));
      JoinTold(EmitParams(m.params), Join(kids, Join(EmitHash(m), call)));
    case AmbiguousKind =>
    case SimpleKind =>
      IdTold(m.id);
      JoinTold(EmitId(m.id), Ops([ResolvePossibleLambda]));
  }

  lemma ChildTold(o: Options, q: Option<Program>)
    ensures Told(EmitChild(o, q))
  {
    if q.Some? {
      var child := CompileProgram(o, q.value);
      ParentDepthsMembers(child.depths);
      forall d: nat | d != 0 ensures UsedBelow(d, [child]) <==> d + 1 in child.depths {
        assert child in [child];
      }
    }
  }

  lemma StatementTold(o: Options, s: Statement, guid: nat)
    requires StatementOk(s)
    ensures Told(EmitStatement(o, s, guid))
  {
    match s
    case Content(_) =>
    case Comment =>
    case Value(m) =>
      MustacheTold(o, m, None, None);
      JoinTold(EmitMustache(o, m, None, None), Ops([if m.escaped && !o.noEscape then AppendEscaped else Append]));
    case Block(_, _, _) => BlockTold(o, s, guid);
  }

  lemma BlockTold(o: Options, s: Statement, guid: nat)
    requires s.Block? && IdOk(s.head.id)
    ensures Told(EmitStatement(o, s, guid))
  {
    var g1 := if s.program.Some? then Some(guid) else None;
    var g2 := if s.inverse.Some? then Some(guid + if s.program.Some? then 1 else 0) else None;
    var kid1, kid2, head := EmitChild(o, s.program), EmitChild(o, s.inverse), EmitMustache(o, s.head, g1, g2);
    var tail := Ops(EmitBlockTail(o, s.head, g1, g2) + [Append]);
    assert EmitStatement(o, s, guid) == Join(Join(kid1, kid2), Join(head, tail));
    ChildTold(o, s.program);
    ChildTold(o, s.inverse);
    MustacheTold(o, s.head, g1, g2);
    TailTold(o, s.head, g1, g2);
    JoinTold(kid1, kid2);
    JoinTold(head, tail);
    JoinTold(Join(kid1, kid2), Join(head, tail));
  }

  lemma TailTold(o: Options, m: Mustache, g1: Option<nat>, g2: Option<nat>)
    ensures Told(Ops(EmitBlockTail(o, m, g1, g2) + [Append]))
  {
  }

  lemma {:induction false} StatementsTold(o: Options, ss: seq<Statement>)
    requires forall s :: s in ss ==> StatementOk(s)
    ensures Told(EmitStatements(o, ss))
  {
    if |ss| > 0 {
      var before := EmitStatements(o, ss[..|ss| - 1]);
      var here := EmitStatement(o, ss[|ss| - 1], |before.children|);
      StatementsTold(o, ss[..|ss| - 1]);
      StatementTold(o, ss[|ss| - 1], |before.children|);
      JoinTold(before, here);
    }
  }

  // ---- depth lists are canonical ----

  predicate Ascending(list: seq<nat>) {
    forall i, j :: 0 <= i < j < |list| ==> list[i] < list[j]
  }

  predicate Distinct(list: seq<nat>) {
    forall i, j :: 0 <= i < j < |list| ==> list[i] != list[j]
  }

  lemma {:induction false} InsertAscending(d: nat, list: seq<nat>)
    requires Ascending(list) && d !in list
    ensures Ascending(Insert(d, list))
  {
    if |list| > 0 && d > list[0] {
      InsertAscending(d, list[1..]);
      InsertMembers(d, list[1..]);
      var rest := Insert(d, list[1..]);
      forall j | 0 <= j < |rest| ensures list[0] < rest[j] { assert rest[j] in rest; }
    }
  }

  lemma {:induction false} SortAscending(list: seq<nat>)
    requires Distinct(list)
    ensures Ascending(Sort(list))
  {
    if |list| > 0 {
      var n := |list| - 1;
      SortAscending(list[..n]);
      SortMembers(list[..n]);
      assert forall i :: 0 <= i < n ==> list[..n][i] != list[n];
      InsertAscending(list[n], Sort(list[..n]));
    }
  }

  lemma {:induction false} AddDepthsDistinct(ds: seq<nat>)
    ensures Distinct(AddDepths([], ds))
  {
    if |ds| > 0 { AddDepthsDistinct(ds[..|ds| - 1]); }
  }

  lemma FirstIsMember(list: seq<nat>)
    requires |list| > 0
    ensures exists d :: d in list
  {
    assert list[0] in list;
  }

  lemma {:induction false} SameMembersSameList(a: seq<nat>, b: seq<nat>)
    requires Ascending(a) && Ascending(b)
    requires forall d :: d in a <==> d in b
    ensures a == b
    decreases |a|
  {
    if |a| == 0 {
      if |b| > 0 {
        FirstIsMember(b);
        assert false;
      }
    } else {
      assert a[0] in b;
      assert b[0] in a;
      assert a[0] == b[0];
      forall d: nat ensures d in a[1..] <==> d in b[1..] {
        assert d in a <==> d == a[0] || d in a[1..];
        assert d in b <==> d == b[0] || d in b[1..];
      }
      SameMembersSameList(a[1..], b[1..]);
      assert a == [a[0]] + a[1..] && b == [b[0]] + b[1..];
    }
  }

  // ---- compiled programs ----

  ghost predicate IsCompiled(o: Options, c: Compiled) {
    exists p :: WellFormed(p) && c == CompileProgram(o, p)
  }

  lemma {:induction false} ChildrenAreCompiled(o: Options, ss: seq<Statement>)
    requires forall s :: s in ss ==> StatementOk(s)
    ensures forall k :: k in EmitStatements(o, ss).children ==> IsCompiled(o, k)
  {
    if |ss| > 0 {
      var before := EmitStatements(o, ss[..|ss| - 1]);
      ChildrenAreCompiled(o, ss[..|ss| - 1]);
      StatementChildren(o, ss[|ss| - 1], |before.children|);
    }
  }

  lemma StatementChildren(o: Options, s: Statement, guid: nat)
    requires StatementOk(s)
    ensures forall k :: k in EmitStatement(o, s, guid).children ==> IsCompiled(o, k)
  {
    if s.Block? {
      HeadChildren(o, s.head, if s.program.Some? then Some(guid) else None,
        if s.inverse.Some? then Some(guid + if s.program.Some? then 1 else 0) else None);
    } else if s.Value? {
      HeadChildren(o, s.m, None, None);
    }
  }

  // The depth list of a compiled program, told from its code alone.
  lemma DepthsAreTold(o: Options, c: Compiled)
    requires IsCompiled(o, c)
    ensures Ascending(c.depths)
    ensures forall d :: d in c.depths <==> d != 0 && (GetContext(d) in c.opcodes || UsedBelow(d, c.children))
    ensures forall k :: k in c.children ==> IsCompiled(o, k)
  {
    var p :| WellFormed(p) && c == CompileProgram(o, p);
    var e := EmitStatements(o, p.statements);
    ProgramDepths(o, p);
    AddDepthsDistinct(e.depths);
    SortAscending(AddDepths([], e.depths));
    StatementsTold(o, p.statements);
    ChildrenAreCompiled(o, p.statements);
  }

  // The same programs were compiled from exactly one statement, at every level.
  predicate SameForm(a: Compiled, b: Compiled) {
    a.isSimple == b.isSimple && |a.children| == |b.children|
    && forall i :: 0 <= i < |a.children| ==> SameForm(a.children[i], b.children[i])
  }

  // Programs the comparison takes for the same have the same depth parameters; and they
  // are the same if and only if, at every level, both or neither have one statement.
  lemma {:induction false} EqualCodeIsSameProgram(o: Options, a: Compiled, b: Compiled)
    requires IsCompiled(o, a) && IsCompiled(o, b) && Equals(a, b)
    ensures a.depths == b.depths
    ensures a == b <==> SameForm(a, b)
    decreases a
  {
    DepthsAreTold(o, a);
    DepthsAreTold(o, b);
    forall i | 0 <= i < |a.children|
      ensures a.children[i].depths == b.children[i].depths
      ensures a.children[i] == b.children[i] <==> SameForm(a.children[i], b.children[i])
    {
      assert a.children[i] in a.children && b.children[i] in b.children;
      EqualCodeIsSameProgram(o, a.children[i], b.children[i]);
    }
    forall d: nat ensures UsedBelow(d, a.children) <==> UsedBelow(d, b.children) {
      SameUses(d, a.children, b.children);
    }
    SameMembersSameList(a.depths, b.depths);
    if SameForm(a, b) { assert a.children == b.children; }
    if a == b { SameAsItself(a); }
  }

  lemma SameUses(d: nat, a: seq<Compiled>, b: seq<Compiled>)
    requires |a| == |b| && forall i :: 0 <= i < |a| ==> a[i].depths == b[i].depths
    ensures UsedBelow(d, a) <==> UsedBelow(d, b)
  {
    if UsedBelow(d, a) {
      var k :| k in a && d + 1 in k.depths;
      var i :| 0 <= i < |a| && a[i] == k;
      assert b[i] in b;
    }
    if UsedBelow(d, b) {
      var k :| k in b && d + 1 in k.depths;
      var i :| 0 <= i < |b| && b[i] == k;
      assert a[i] in a;
    }
  }

  lemma {:induction false} SameAsItself(a: Compiled)
    ensures SameForm(a, a)
    decreases a
  {
    forall i | 0 <= i < |a.children| ensures SameForm(a.children[i], a.children[i]) { SameAsItself(a.children[i]); }
  }
}

// When one function may stand for two programs with the same code: enough of it.
module SharedReturn {
  import opened Wrappers
  import opened Template
  import opened Opcodes
  import opened Emit
  import opened Running
  import opened CompilerCorrect
  import opened ProgramSharing

  predicate Appends(op: Op) { op.AppendContent? || op.Append? || op.AppendEscaped? }

  predicate NoAppends(ops: seq<Op>) { forall op :: op in ops ==> !Appends(op) }

  // ---- nested programs that run alike ----

  ghost predicate KidsAlike(a: seq<Compiled>, b: seq<Compiled>, env: Env) {
    |a| == |b| && forall i :: 0 <= i < |a| ==> RunAlike(a[i], b[i], env)
  }

  ghost predicate RunAlike(a: Compiled, b: Compiled, env: Env) {
    a.depths == b.depths && forall f :: RunProgram(a, f, env) == RunProgram(b, f, env)
  }

  lemma EnterAlike(a: seq<Compiled>, b: seq<Compiled>, env: Env, p: Closure, ctx: Val)
    requires KidsAlike(a, b, env)
    ensures Enter(a, env, p, ctx) == Enter(b, env, p, ctx)
  {
    if p.guid < |a| { assert RunAlike(a[p.guid], b[p.guid], env); }
  }

  lemma BodyAlike(a: seq<Compiled>, b: seq<Compiled>, env: Env, q: Option<Closure>)
    requires KidsAlike(a, b, env)
    ensures Faulty(a, env, q) == Faulty(b, env, q)
    ensures Agree(Entered(a, env, q), Entered(b, env, q))
  {
    if q.Some? {
      forall ctx ensures Enter(a, env, q.value, ctx) == Enter(b, env, q.value, ctx) {
        EnterAlike(a, b, env, q.value, ctx);
      }
    }
  }

  // A helper cannot tell them apart, because it only calls its bodies.
  lemma CallAlike(a: seq<Compiled>, b: seq<Compiled>, env: Env, helper: Helper, self: Val, args: seq<Val>,
                  hash: map<string, Val>, p: Option<Closure>, i: Option<Closure>)
    requires KidsAlike(a, b, env) && CallsOnly(helper)
    ensures CallHelper(a, env, helper, self, args, hash, p, i) == CallHelper(b, env, helper, self, args, hash, p, i)
  {
    BodyAlike(a, b, env, p);
    BodyAlike(a, b, env, i);
    if !(p.None? && i.None?) && !Faulty(a, env, p) && !Faulty(a, env, i) {
      AgreeingBodies(helper, self, args, hash,
        Bodies(Entered(a, env, p), Entered(a, env, i)), Bodies(Entered(b, env, p), Entered(b, env, i)));
    }
  }

  lemma RunCallAlike(a: Compiled, b: Compiled, f: Frame, env: Env, m: Machine, n: nat, helper: Helper,
                     front: seq<Val>)
    requires KidsAlike(a.children, b.children, env) && CallsOnly(helper) && HasCall(m, n)
    ensures RunCall(a, f, env, m, n, helper, front) == RunCall(b, f, env, m, n, helper, front)
  {
    var args := front + PopParams(m.stack[..|m.stack| - 3], n).value;
    var hash, p, i := Peek(m, 0).hash, Peek(m, 2).closure, Peek(m, 1).closure;
    assert RunCall(a, f, env, m, n, helper, front)
        == Finish(Drop(m, n + 3), CallHelper(a.children, env, helper, f.depth0, args, hash, p, i));
    assert RunCall(b, f, env, m, n, helper, front)
        == Finish(Drop(m, n + 3), CallHelper(b.children, env, helper, f.depth0, args, hash, p, i));
    CallAlike(a.children, b.children, env, helper, f.depth0, args, hash, p, i);
  }

  lemma RunBlockValueAlike(a: Compiled, b: Compiled, f: Frame, env: Env, m: Machine)
    requires EnvOk(env) && KidsAlike(a.children, b.children, env) && HasBlockValue(m)
    ensures RunBlockValue(a, f, env, m) == RunBlockValue(b, f, env, m)
  {
    CallAlike(a.children, b.children, env, env.blockHelperMissing, f.depth0, [Peek(m, 3).v],
      Peek(m, 0).hash, Peek(m, 2).closure, Peek(m, 1).closure);
  }

  lemma CallStepAlike(a: Compiled, b: Compiled, f: Frame, env: Env, op: Op, m: Machine)
    requires EnvOk(env) && KidsAlike(a.children, b.children, env)
    requires op.InvokeHelper? || op.InvokeKnownHelper?
    ensures Step(a, f, env, op, m) == Step(b, f, env, op, m)
  {
    if HasCall(m, op.params) {
      if op.name in env.helpers {
        RunCallAlike(a, b, f, env, m, op.params, env.helpers[op.name], []);
      } else {
        RunCallAlike(a, b, f, env, m, op.params, env.helperMissing, [Str(op.name)]);
      }
    }
  }

  lemma AmbiguousStepAlike(a: Compiled, b: Compiled, f: Frame, env: Env, name: string, m: Machine)
    requires EnvOk(env) && KidsAlike(a.children, b.children, env)
    ensures Step(a, f, env, InvokeAmbiguous(name), m) == Step(b, f, env, InvokeAmbiguous(name), m)
  {
    if |m.stack| >= 2 && Peek(m, 0).P? && Peek(m, 1).P? && name in env.helpers {
      CallAlike(a.children, b.children, env, env.helpers[name], f.depth0, [], map[],
        Peek(m, 1).closure, Peek(m, 0).closure);
    }
  }

  lemma StepAlike(a: Compiled, b: Compiled, f: Frame, env: Env, op: Op, m: Machine)
    requires EnvOk(env) && KidsAlike(a.children, b.children, env)
    requires a.isSimple == b.isSimple || !Appends(op)
    ensures Step(a, f, env, op, m) == Step(b, f, env, op, m)
  {
    if op.InvokeHelper? || op.InvokeKnownHelper? {
      CallStepAlike(a, b, f, env, op, m);
    } else if op.InvokeAmbiguous? {
      AmbiguousStepAlike(a, b, f, env, op.name, m);
    } else if op.BlockValue? || op.AmbiguousBlockValue? {
      if HasBlockValue(m) { RunBlockValueAlike(a, b, f, env, m); }
    } else if op.PushProgram? && op.guid.Some? && op.guid.value < |a.children| {
      assert RunAlike(a.children[op.guid.value], b.children[op.guid.value], env);
    }
  }

  lemma {:induction false} CodeAlike(a: Compiled, b: Compiled, f: Frame, env: Env, ops: seq<Op>, m: Machine)
    requires EnvOk(env) && KidsAlike(a.children, b.children, env)
    requires a.isSimple == b.isSimple || NoAppends(ops)
    ensures RunOps(a, f, env, ops, m) == RunOps(b, f, env, ops, m)
    decreases |ops|
  {
    if |ops| > 0 {
      var n := |ops| - 1;
      CodeAlike(a, b, f, env, ops[..n], m);
      var r := RunOps(a, f, env, ops[..n], m);
      if r.Halted? { StepAlike(a, b, f, env, ops[n], r.value); }
    }
  }

  // ---- code without appends ----

  lemma QuietStep(c: Compiled, f: Frame, env: Env, op: Op, m: Machine)
    requires !Appends(op)
    ensures !Step(c, f, env, op, m).Returned?
    ensures Step(c, f, env, op, m).Halted? ==> Step(c, f, env, op, m).value.out == m.out
  {
  }

  // It never returns and leaves the buffer alone.
  lemma {:induction false} QuietRun(c: Compiled, f: Frame, env: Env, ops: seq<Op>, m: Machine)
    requires NoAppends(ops)
    ensures !RunOps(c, f, env, ops, m).Returned?
    ensures RunOps(c, f, env, ops, m).Halted? ==> RunOps(c, f, env, ops, m).value.out == m.out
    decreases |ops|
  {
    if |ops| > 0 {
      var n := |ops| - 1;
      QuietRun(c, f, env, ops[..n], m);
      var r := RunOps(c, f, env, ops[..n], m);
      if r.Halted? { QuietStep(c, f, env, ops[n], r.value); }
    }
  }

  lemma {:induction false} LookupsAreQuiet(names: seq<string>)
    ensures NoAppends(Lookups(names))
  {
    if |names| > 0 { LookupsAreQuiet(names[..|names| - 1]); }
  }

  lemma ParamIsQuiet(p: Param)
    ensures NoAppends(EmitParam(p).ops)
  {
    if p.PathParam? { LookupsAreQuiet(if |p.id.parts| == 0 then [] else p.id.parts[1..]); }
  }

  lemma {:induction false} ParamsAreQuiet(ps: seq<Param>)
    ensures NoAppends(EmitParams(ps).ops)
  {
    if |ps| > 0 {
      ParamsAreQuiet(ps[1..]);
      ParamIsQuiet(ps[0]);
    }
  }

  lemma {:induction false} PairsAreQuiet(pairs: seq<(string, Param)>)
    ensures NoAppends(EmitPairs(pairs).ops)
  {
    if |pairs| > 0 {
      PairsAreQuiet(pairs[..|pairs| - 1]);
      ParamIsQuiet(pairs[|pairs| - 1].1);
    }
  }

  lemma QuietJoin(a: seq<Op>, b: seq<Op>)
    requires NoAppends(a) && NoAppends(b)
    ensures NoAppends(a + b)
  {
  }

  lemma HashIsQuiet(m: Mustache)
    ensures NoAppends(EmitHash(m).ops)
  {
    if m.hash.Some? { PairsAreQuiet(m.hash.value); }
  }

  lemma HelperIsQuiet(o: Options, m: Mustache, g1: Option<nat>, g2: Option<nat>)
    ensures NoAppends(EmitHelper(o, m, g1, g2).ops)
  {
    var kids, call := [PushProgram(g1), PushProgram(g2)], [Invoke(o, |m.params|, Name(m))];
    ParamsAreQuiet(m.params);
    HashIsQuiet(m);
    QuietJoin(EmitHash(m).ops, call);
    QuietJoin(kids, EmitHash(m).ops + call);
    QuietJoin(EmitParams(m.params).ops, kids + (EmitHash(m).ops + call));
  }

  lemma MustacheIsQuiet(o: Options, m: Mustache, g1: Option<nat>, g2: Option<nat>)
    ensures NoAppends(EmitMustache(o, m, g1, g2).ops)
  {
    match Classify(o, m)
    case HelperKind => HelperIsQuiet(o, m, g1, g2);
    case AmbiguousKind =>
    case SimpleKind => ParamIsQuiet(PathParam(m.id));
  }

  // ---- the single statement ----

  // Whether a statement's value goes out as it is: a value the template does not escape.
  predicate GoesOutRaw(o: Options, s: Statement) {
    s.Block? || (s.Value? && (!s.m.escaped || o.noEscape))
  }

  lemma ValueCode(o: Options, m: Mustache) returns (quiet: seq<Op>, last: Op)
    ensures EmitStatement(o, Value(m), 0).ops == quiet + [last] && NoAppends(quiet) && Appends(last)
    ensures last.Append? <==> GoesOutRaw(o, Value(m))
  {
    MustacheIsQuiet(o, m, None, None);
    quiet := EmitMustache(o, m, None, None).ops;
    last := if m.escaped && !o.noEscape then AppendEscaped else Append;
  }

  lemma BlockCode(o: Options, s: Statement) returns (quiet: seq<Op>)
    requires s.Block?
    ensures EmitStatement(o, s, 0).ops == quiet + [Append] && NoAppends(quiet)
  {
    var g1 := if s.program.Some? then Some(0) else None;
    var g2 := if s.inverse.Some? then Some(0 + if s.program.Some? then 1 else 0) else None;
    var e, tail := EmitMustache(o, s.head, g1, g2), EmitBlockTail(o, s.head, g1, g2);
    MustacheIsQuiet(o, s.head, g1, g2);
    assert NoAppends(tail);
    quiet := e.ops + tail;
    assert EmitStatement(o, s, 0).ops == e.ops + (tail + [Append]);
    assert e.ops + (tail + [Append]) == quiet + [Append];
  }

  // A program of one statement is quiet code and one append at the end, unless it is a
  // comment.
  lemma OneAppend(o: Options, p: Program) returns (quiet: seq<Op>, last: Op)
    requires |p.statements| == 1 && !p.statements[0].Comment?
    ensures CompileProgram(o, p).opcodes == quiet + [last] && NoAppends(quiet) && Appends(last)
    ensures last.Append? <==> GoesOutRaw(o, p.statements[0])
  {
    var s := p.statements[0];
    OnlyCode(o, p.statements);
    if s.Content? {
      quiet, last := [], AppendContent(s.text);
    } else if s.Value? {
      quiet, last := ValueCode(o, s.m);
    } else {
      quiet := BlockCode(o, s);
      last := Append;
    }
  }

  lemma OnlyCode(o: Options, ss: seq<Statement>)
    requires |ss| == 1
    ensures EmitStatements(o, ss).ops == EmitStatement(o, ss[0], 0).ops
  {
    assert ss[..0] == [];
    assert EmitStatements(o, []) == Ops([]);
    assert [] + EmitStatement(o, ss[0], 0).ops == EmitStatement(o, ss[0], 0).ops;
  }

  // ---- the condition ----

  // The code ends by appending text: a constant or an escaped value.
  predicate EndsInText(c: Compiled) {
    |c.opcodes| > 0 && var last := c.opcodes[|c.opcodes| - 1]; last.AppendContent? || last.AppendEscaped?
  }

  // At every level, both or neither were compiled from one statement, or the code ends in
  // text.
  predicate Interchangeable(a: Compiled, b: Compiled) {
    (a.isSimple == b.isSimple || EndsInText(a)) && |a.children| == |b.children|
    && forall i :: 0 <= i < |a.children| ==> Interchangeable(a.children[i], b.children[i])
  }

  // A returned text and the buffer of the same code.
  lemma TextEitherWay(a: Compiled, b: Compiled, f: Frame, env: Env, quiet: seq<Op>, last: Op)
    requires EnvOk(env) && KidsAlike(a.children, b.children, env) && a.isSimple && !b.isSimple
    requires a.opcodes == b.opcodes == quiet + [last] && NoAppends(quiet)
    requires last.AppendContent? || last.AppendEscaped?
    ensures RunProgram(a, f, env) == RunProgram(b, f, env)
  {
    CodeAlike(a, b, f, env, quiet, START);
    QuietRun(a, f, env, quiet, START);
    RunSnoc(a, f, env, quiet, last, START);
    RunSnoc(b, f, env, quiet, last, START);
    var r := RunOps(a, f, env, quiet, START);
    if r.Halted? {
      var m := r.value;
      var text := if last.AppendContent? then last.text
                  else if |m.stack| > 0 && Peek(m, 0).V? then Escaped(env, Peek(m, 0).v) else "";
      assert m.out + text == text;
    }
  }

  lemma OneSided(o: Options, a: Compiled, b: Compiled, f: Frame, env: Env)
    requires EnvOk(env) && KidsAlike(a.children, b.children, env) && a.opcodes == b.opcodes
    requires IsCompiled(o, a) && a.isSimple && !b.isSimple && EndsInText(a)
    ensures RunProgram(a, f, env) == RunProgram(b, f, env)
  {
    var p :| WellFormed(p) && a == CompileProgram(o, p);
    if p.statements[0].Comment? { OnlyCode(o, p.statements); }
    var quiet, last := OneAppend(o, p);
    assert a.opcodes[|a.opcodes| - 1] == last;
    TextEitherWay(a, b, f, env, quiet, last);
  }

  // Interchangeable programs run alike: the function of one may be called for the other.
  lemma {:induction false} InterchangeableRunAlike(o: Options, a: Compiled, b: Compiled, env: Env)
    requires EnvOk(env) && IsCompiled(o, a) && IsCompiled(o, b) && Equals(a, b) && Interchangeable(a, b)
    ensures RunAlike(a, b, env)
    decreases a
  {
    DepthsAreTold(o, a);
    DepthsAreTold(o, b);
    EqualCodeIsSameProgram(o, a, b);
    forall i | 0 <= i < |a.children| ensures RunAlike(a.children[i], b.children[i], env) {
      assert a.children[i] in a.children && b.children[i] in b.children;
      InterchangeableRunAlike(o, a.children[i], b.children[i], env);
    }
    assert KidsAlike(b.children, a.children, env) by {
      forall i | 0 <= i < |a.children| ensures RunAlike(b.children[i], a.children[i], env) {
        assert RunAlike(a.children[i], b.children[i], env);
      }
    }
    forall f ensures RunProgram(a, f, env) == RunProgram(b, f, env) {
      if a.isSimple == b.isSimple {
        CodeAlike(a, b, f, env, a.opcodes, START);
      } else if a.isSimple {
        OneSided(o, a, b, f, env);
      } else {
        OneSided(o, b, a, f, env);
      }
    }
  }
}
