// The compiled program means what the tree means: run on the stack machine in any frame
// that binds its depths to the contexts around it, the code of a program never faults,
// leaves the stack as it found it, and appends exactly the text of the tree walk.
module DepthLists {
  import opened Template
  import opened Emit

  lemma {:induction false} InsertMembers(d: nat, list: seq<nat>)
    ensures forall k :: k in Insert(d, list) <==> k == d || k in list
  {
    if |list| > 0 && d > list[0] {
      InsertMembers(d, list[1..]);
      assert list == [list[0]] + list[1..];
    }
  }

  lemma {:induction false} SortMembers(list: seq<nat>)
    ensures forall k :: k in Sort(list) <==> k in list
  {
    if |list| > 0 {
      var n := |list| - 1;
      SortMembers(list[..n]);
      InsertMembers(list[n], Sort(list[..n]));
      assert list == list[..n] + [list[n]];
    }
  }

  lemma {:induction false} AddDepthsMembers(list: seq<nat>, ds: seq<nat>)
    ensures forall k :: k in AddDepths(list, ds) <==> k in list || (k != 0 && k in ds)
  {
    if |ds| > 0 {
      var n := |ds| - 1;
      AddDepthsMembers(list, ds[..n]);
      assert ds == ds[..n] + [ds[n]];
    }
  }

  // A program's depth list holds exactly the non-zero depths its nodes add.
  lemma ProgramDepths(o: Options, p: Program)
    ensures forall d ::
      d in CompileProgram(o, p).depths <==> d != 0 && d in EmitStatements(o, p.statements).depths
  {
    var ds := EmitStatements(o, p.statements).depths;
    AddDepthsMembers([], ds);
    SortMembers(AddDepths([], ds));
  }

  lemma {:induction false} ParentDepthsMembers(ds: seq<nat>)
    ensures forall k: nat :: k in ParentDepths(ds) <==> k != 0 && k + 1 in ds
  {
    if |ds| > 0 {
      var n := |ds| - 1;
      ParentDepthsMembers(ds[..n]);
      var more := if ds[n] < 2 then [] else [ds[n] - 1];
      forall k: nat ensures k in ParentDepths(ds) <==> k != 0 && k + 1 in ds {
        assert k in ParentDepths(ds) <==> k in ParentDepths(ds[..n]) || k in more;
        assert k + 1 in ds <==> k + 1 in ds[..n] || k + 1 == ds[n];
      }
    }
  }
}

module Frames {
  import opened Wrappers
  import opened Template
  import opened Opcodes
  import opened Emit
  import opened DepthLists

  // In this frame the variable depthD exists and holds the D-th enclosing context.
  predicate Sees(f: Frame, d: nat, ctxs: seq<Val>) {
    DepthValue(f, d) == Some(ContextAt(ctxs, d))
  }

  predicate FrameOk(f: Frame, ds: seq<nat>, ctxs: seq<Val>) {
    Sees(f, 0, ctxs) && forall d :: d in ds ==> Sees(f, d, ctxs)
  }

  lemma FramePart(f: Frame, a: seq<nat>, b: seq<nat>, ctxs: seq<Val>)
    requires FrameOk(f, a + b, ctxs)
    ensures FrameOk(f, a, ctxs) && FrameOk(f, b, ctxs)
  {
    forall d | d in a ensures Sees(f, d, ctxs) { assert d in a + b; }
    forall d | d in b ensures Sees(f, d, ctxs) { assert d in a + b; }
  }

  // The contexts a nested program finds one level further out.
  function Outer(depths: seq<nat>, ctxs: seq<Val>): (vs: seq<Val>)
    ensures |vs| == |depths|
    ensures forall k :: 0 <= k < |depths| ==> vs[k] == ContextAt(ctxs, if depths[k] == 0 then 0 else depths[k] - 1)
  {
    if |depths| == 0 then []
    else var d := depths[|depths| - 1];
         Outer(depths[..|depths| - 1], ctxs) + [ContextAt(ctxs, if d == 0 then 0 else d - 1)]
  }

  // The arguments of a program expression are the contexts around the block.
  lemma {:induction false} CaptureIsOuter(f: Frame, depths: seq<nat>, ctxs: seq<Val>)
    requires FrameOk(f, ParentDepths(depths), ctxs)
    ensures Capture(f, depths) == Some(Outer(depths, ctxs))
  {
    if |depths| > 0 {
      var n := |depths| - 1;
      FramePart(f, ParentDepths(depths[..n]), if depths[n] < 2 then [] else [depths[n] - 1], ctxs);
      CaptureIsOuter(f, depths[..n], ctxs);
      ParentDepthsMembers(depths);
      if depths[n] >= 2 { assert Sees(f, depths[n] - 1, ctxs); }
    }
  }

  lemma EnteredDepth(f: Frame, depths: seq<nat>, ctx: Val, ctxs: seq<Val>, d: nat)
    requires d in depths && d != 0 && f == MakeFrame(ctx, depths, Outer(depths, ctxs))
    ensures Sees(f, d, [ctx] + ctxs)
  {
    assert f.bound[d] == Outer(depths, ctxs)[IndexOf(depths, d)];
    assert ContextAt([ctx] + ctxs, d) == ContextAt(ctxs, d - 1);
  }

  // Entered with those arguments, the nested program sees the helper's context as its
  // own and every context around the block one level further out.
  lemma EnteredFrame(depths: seq<nat>, ctx: Val, ctxs: seq<Val>)
    requires 0 !in depths
    ensures FrameOk(MakeFrame(ctx, depths, Outer(depths, ctxs)), depths, [ctx] + ctxs)
  {
    var f := MakeFrame(ctx, depths, Outer(depths, ctxs));
    forall d | d in depths ensures Sees(f, d, [ctx] + ctxs) {
      EnteredDepth(f, depths, ctx, ctxs, d);
    }
  }
}

module Running {
  import opened Wrappers
  import opened Template
  import opened Opcodes
  import opened Emit
  import opened Frames

  // Running code that a first part and a second part make up.
  ghost function AndThen(c: Compiled, f: Frame, env: Env, r: Run<Machine>, ops: seq<Op>): Run<Machine> {
    match r
    case Halted(m) => RunOps(c, f, env, ops, m)
    case Returned(v) => Returned(v)
    case Exception => Exception
    case Stuck => Stuck
  }

  lemma {:induction false} RunJoin(c: Compiled, f: Frame, env: Env, a: seq<Op>, b: seq<Op>, m: Machine)
    ensures RunOps(c, f, env, a + b, m) == AndThen(c, f, env, RunOps(c, f, env, a, m), b)
    decreases |b|
  {
    if |b| == 0 {
      assert a + b == a;
    } else {
      var n := |b| - 1;
      RunJoin(c, f, env, a, b[..n], m);
      assert (a + b)[..|a + b| - 1] == a + b[..n];
    }
  }

  lemma RunOne(c: Compiled, f: Frame, env: Env, op: Op, m: Machine)
    ensures RunOps(c, f, env, [op], m) == Step(c, f, env, op, m)
  {
    assert [op][..0] == [];
    assert RunOps(c, f, env, [], m) == Halted(m);
  }

  lemma RunSnoc(c: Compiled, f: Frame, env: Env, a: seq<Op>, op: Op, m: Machine)
    ensures RunOps(c, f, env, a + [op], m) == AndThen(c, f, env, RunOps(c, f, env, a, m), [op])
    ensures RunOps(c, f, env, a, m).Halted? ==>
      RunOps(c, f, env, a + [op], m) == Step(c, f, env, op, RunOps(c, f, env, a, m).value)
  {
    RunJoin(c, f, env, a, [op], m);
    if RunOps(c, f, env, a, m).Halted? { RunOne(c, f, env, op, RunOps(c, f, env, a, m).value); }
  }

  // ---- paths and parameters push one value ----

  lemma LookupStep(c: Compiled, f: Frame, env: Env, name: string, m: Machine, v: Val)
    ensures Step(c, f, env, Lookup(name), Push(m, V(v))) == Halted(Push(m, V(LaterLookup(env, v, name))))
  {
    assert (m.stack + [V(v)])[..|m.stack|] == m.stack;
  }

  lemma {:induction false} LookupsRun(c: Compiled, f: Frame, env: Env, names: seq<string>, m: Machine, v: Val)
    ensures RunOps(c, f, env, Lookups(names), Push(m, V(v))) == Halted(Push(m, V(LaterLookups(env, v, names))))
  {
    if |names| > 0 {
      var n := |names| - 1;
      LookupsRun(c, f, env, names[..n], m, v);
      RunSnoc(c, f, env, Lookups(names[..n]), Lookup(names[n]), Push(m, V(v)));
      LookupStep(c, f, env, names[n], m, LaterLookups(env, v, names[..n]));
    }
  }

  // A path pushes the value it has in the stack of contexts, `../` included.
  lemma IdRun(c: Compiled, f: Frame, env: Env, id: Id, m: Machine, ctxs: seq<Val>)
    requires Sees(f, id.depth, ctxs)
    ensures RunOps(c, f, env, EmitId(id).ops, m)
         == Finish(m.(last := id.depth), Lift(PathValue(env, id, ctxs)))
  {
    var m1 := m.(last := id.depth);
    var names := if |id.parts| == 0 then [] else id.parts[1..];
    var first := if |id.parts| == 0 || id.parts[0] == "" then PushContext else LookupOnContext(id.parts[0]);
    assert EmitId(id).ops == ([GetContext(id.depth)] + [first]) + Lookups(names);
    RunOne(c, f, env, GetContext(id.depth), m);
    RunSnoc(c, f, env, [GetContext(id.depth)], first, m);
    RunJoin(c, f, env, [GetContext(id.depth)] + [first], Lookups(names), m);
    var r := Step(c, f, env, first, m1);
    if first.PushContext? {
      LookupsRun(c, f, env, names, m1, ContextAt(ctxs, id.depth));
    } else {
      var v := FirstLookup(env, ContextAt(ctxs, id.depth), id.parts[0]);
      if v.Done? { LookupsRun(c, f, env, names, m1, v.value); }
    }
  }

  lemma ParamRun(c: Compiled, f: Frame, env: Env, p: Param, m: Machine, ctxs: seq<Val>)
    requires FrameOk(f, EmitParam(p).depths, ctxs)
    ensures RunOps(c, f, env, EmitParam(p).ops, m)
         == Finish(m.(last := LastOfParam(p, m.last)), Lift(ParamValue(env, p, ctxs)))
  {
    match p
    case PathParam(id) =>
      assert id.depth in EmitParam(p).depths;
      IdRun(c, f, env, id, m, ctxs);
    case StringParam(s) => RunOne(c, f, env, PushString(s), m);
    case IntegerParam(n) => RunOne(c, f, env, PushLiteral(Num(n)), m);
    case BooleanParam(b) => RunOne(c, f, env, PushLiteral(Bool(b)), m);
  }

  // ---- parameter lists ----

  // The first parameter ends on top.
  function Piled(vs: seq<Val>): seq<Item> {
    if |vs| == 0 then [] else Piled(vs[1..]) + [V(vs[0])]
  }

  lemma {:induction false} PopPiled(stack: seq<Item>, vs: seq<Val>)
    ensures |Piled(vs)| == |vs|
    ensures PopParams(stack + Piled(vs), |vs|) == Some(vs)
  {
    if |vs| > 0 {
      PopPiled(stack, vs[1..]);
      var all := stack + Piled(vs);
      assert all[|all| - 1] == V(vs[0]);
      assert all[..|all| - 1] == stack + Piled(vs[1..]);
      assert vs == [vs[0]] + vs[1..];
    }
  }

  function PushAll(m: Machine, r: Outcome<seq<Val>>): Run<Machine> {
    match r
    case Done(vs) => Halted(m.(stack := m.stack + Piled(vs)))
    case Thrown => Exception
  }

  lemma {:induction false} ParamsRun(c: Compiled, f: Frame, env: Env, ps: seq<Param>, m: Machine, ctxs: seq<Val>)
    requires FrameOk(f, EmitParams(ps).depths, ctxs)
    ensures RunOps(c, f, env, EmitParams(ps).ops, m)
         == PushAll(m.(last := LastOfParams(ps, m.last)), ParamValues(env, ps, ctxs))
  {
    if |ps| == 0 {
      assert m.stack + [] == m.stack;
    } else {
      FramePart(f, EmitParams(ps[1..]).depths, EmitParam(ps[0]).depths, ctxs);
      ParamsRun(c, f, env, ps[1..], m, ctxs);
      RunJoin(c, f, env, EmitParams(ps[1..]).ops, EmitParam(ps[0]).ops, m);
      var rest := ParamValues(env, ps[1..], ctxs);
      if rest.Done? {
        var m1 := m.(last := LastOfParams(ps[1..], m.last), stack := m.stack + Piled(rest.value));
        ParamRun(c, f, env, ps[0], m1, ctxs);
        var v := ParamValue(env, ps[0], ctxs);
        if v.Done? {
          assert ([v.value] + rest.value)[1..] == rest.value;
          assert m.stack + (Piled(rest.value) + [V(v.value)]) == (m.stack + Piled(rest.value)) + [V(v.value)];
        }
      }
    }
  }

  // ---- hashes ----

  function SetHash(m: Machine, r: Outcome<map<string, Val>>): Run<Machine> {
    match r
    case Done(h) => Halted(m.(hash := h))
    case Thrown => Exception
  }

  lemma PairRun(c: Compiled, f: Frame, env: Env, pair: (string, Param), m: Machine, ctxs: seq<Val>)
    requires FrameOk(f, EmitParam(pair.1).depths, ctxs)
    ensures RunOps(c, f, env, EmitParam(pair.1).ops + [AssignToHash(pair.0)], m)
         == match ParamValue(env, pair.1, ctxs)
            case Done(v) => Halted(m.(last := LastOfParam(pair.1, m.last), hash := m.hash[pair.0 := v]))
            case Thrown => Exception
  {
    ParamRun(c, f, env, pair.1, m, ctxs);
    RunSnoc(c, f, env, EmitParam(pair.1).ops, AssignToHash(pair.0), m);
    var v := ParamValue(env, pair.1, ctxs);
    if v.Done? { assert (m.stack + [V(v.value)])[..|m.stack|] == m.stack; }
  }

  lemma {:induction false} PairsRun(
    c: Compiled, f: Frame, env: Env, pairs: seq<(string, Param)>, m: Machine, ctxs: seq<Val>)
    requires FrameOk(f, EmitPairs(pairs).depths, ctxs)
    requires m.hash == map[]
    ensures RunOps(c, f, env, EmitPairs(pairs).ops, m)
         == SetHash(m.(last := LastOfPairs(pairs, m.last)), HashValues(env, pairs, ctxs))
  {
    if |pairs| > 0 {
      var n := |pairs| - 1;
      var before, p, assign := EmitPairs(pairs[..n]), pairs[n].1, AssignToHash(pairs[n].0);
      FramePart(f, before.depths, EmitParam(p).depths + [], ctxs);
      assert EmitParam(p).depths + [] == EmitParam(p).depths;
      PairsRun(c, f, env, pairs[..n], m, ctxs);
      RunJoin(c, f, env, before.ops, EmitParam(p).ops + [assign], m);
      var h := HashValues(env, pairs[..n], ctxs);
      if h.Done? {
        var m1 := m.(last := LastOfPairs(pairs[..n], m.last), hash := h.value);
        PairRun(c, f, env, pairs[n], m1, ctxs);
      }
    }
  }

  function PushHashOf(m: Machine, r: Outcome<map<string, Val>>): Run<Machine> {
    match r
    case Done(h) => Halted(Push(m.(hash := map[]), H(h)))
    case Thrown => Exception
  }

  lemma PairsHashRun(
    c: Compiled, f: Frame, env: Env, pairs: seq<(string, Param)>, m: Machine, ctxs: seq<Val>)
    requires FrameOk(f, EmitPairs(pairs).depths, ctxs)
    requires m.hash == map[]
    ensures RunOps(c, f, env, [PushHash] + (EmitPairs(pairs).ops + [PopHash]), m)
         == PushHashOf(m.(last := LastOfPairs(pairs, m.last)), HashValues(env, pairs, ctxs))
  {
    var ops := EmitPairs(pairs).ops;
    RunJoin(c, f, env, [PushHash], ops + [PopHash], m);
    assert RunOps(c, f, env, [PushHash], m) == Halted(m) by { RunOne(c, f, env, PushHash, m); }
    PairsPopped(c, f, env, pairs, m, ctxs);
  }

  lemma PairsPopped(
    c: Compiled, f: Frame, env: Env, pairs: seq<(string, Param)>, m: Machine, ctxs: seq<Val>)
    requires FrameOk(f, EmitPairs(pairs).depths, ctxs)
    requires m.hash == map[]
    ensures RunOps(c, f, env, EmitPairs(pairs).ops + [PopHash], m)
         == PushHashOf(m.(last := LastOfPairs(pairs, m.last)), HashValues(env, pairs, ctxs))
  {
    PairsRun(c, f, env, pairs, m, ctxs);
    RunSnoc(c, f, env, EmitPairs(pairs).ops, PopHash, m);
  }

  lemma HashRun(c: Compiled, f: Frame, env: Env, mu: Mustache, m: Machine, ctxs: seq<Val>)
    requires FrameOk(f, EmitHash(mu).depths, ctxs)
    requires m.hash == map[]
    ensures RunOps(c, f, env, EmitHash(mu).ops, m)
         == PushHashOf(m.(last := LastOfHash(mu, m.last)), HashOf(env, mu, ctxs))
  {
    match mu.hash
    case None => RunOne(c, f, env, EmptyHash, m);
    case Some(pairs) =>
      assert [] + (EmitPairs(pairs).depths + []) == EmitPairs(pairs).depths;
      PairsHashRun(c, f, env, pairs, m, ctxs);
  }
}

module CompilerCorrect {
  import opened Wrappers
  import opened Template
  import opened Opcodes
  import opened Emit
  import opened DepthLists
  import opened Frames
  import opened Running

  // ---- templates the parser delivers ----

  predicate StatementOk(s: Statement) {
    match s
    case Content(_) => true
    case Comment => true
    case Value(m) => IdOk(m.id)
    case Block(head, program, inverse) =>
      IdOk(head.id) && (program.Some? ==> WellFormed(program.value)) && (inverse.Some? ==> WellFormed(inverse.value))
  }

  predicate WellFormed(p: Program) { forall s :: s in p.statements ==> StatementOk(s) }

  // ---- nested programs on the stack ----

  function ProgramOf(s: Statement): Option<Program> { if s.Block? then s.program else None }

  function InverseOf(s: Statement): Option<Program> { if s.Block? then s.inverse else None }

  // The number of a nested program names its compiled form among the children.
  predicate GuidOk(c: Compiled, o: Options, q: Option<Program>, g: Option<nat>) {
    g.Some? == q.Some?
    && (q.Some? ==> g.value < |c.children| && c.children[g.value] == CompileProgram(o, q.value))
  }

  function ClosureFor(c: Compiled, g: Option<nat>, ctxs: seq<Val>): Option<Closure>
    requires g.Some? ==> g.value < |c.children|
  {
    if g.None? then None else Some(Closure(g.value, Outer(c.children[g.value].depths, ctxs)))
  }

  // A call of statement s: its block's programs, closed over the contexts around it.
  datatype Call = Call(s: Statement, body: Option<nat>, inverse: Option<nat>, ctxs: seq<Val>)

  predicate CallOk(c: Compiled, o: Options, k: Call) {
    StatementOk(k.s) && GuidOk(c, o, ProgramOf(k.s), k.body) && GuidOk(c, o, InverseOf(k.s), k.inverse)
  }

  predicate KidsSeen(f: Frame, o: Options, k: Call) {
    FrameOk(f, EmitChild(o, ProgramOf(k.s)).depths, k.ctxs) && FrameOk(f, EmitChild(o, InverseOf(k.s)).depths, k.ctxs)
  }

  function PushKids(c: Compiled, o: Options, k: Call, m: Machine): Machine
    requires CallOk(c, o, k)
  {
    Push(Push(m, P(ClosureFor(c, k.body, k.ctxs))), P(ClosureFor(c, k.inverse, k.ctxs)))
  }

  lemma KidsRun(c: Compiled, f: Frame, env: Env, o: Options, k: Call, m: Machine)
    requires CallOk(c, o, k) && KidsSeen(f, o, k)
    ensures RunOps(c, f, env, [PushProgram(k.body), PushProgram(k.inverse)], m) == Halted(PushKids(c, o, k, m))
  {
    if k.body.Some? { CaptureIsOuter(f, c.children[k.body.value].depths, k.ctxs); }
    if k.inverse.Some? { CaptureIsOuter(f, c.children[k.inverse.value].depths, k.ctxs); }
    RunOne(c, f, env, PushProgram(k.body), m);
    RunSnoc(c, f, env, [PushProgram(k.body)], PushProgram(k.inverse), m);
    assert [PushProgram(k.body)] + [PushProgram(k.inverse)] == [PushProgram(k.body), PushProgram(k.inverse)];
  }

  // ---- the bodies a helper gets ----

  // Entering a nested program through its closure is interpreting it below the helper's
  // context.
  lemma EnterRun(c: Compiled, env: Env, o: Options, q: Option<Program>, g: Option<nat>, ctx: Val, ctxs: seq<Val>)
    requires EnvOk(env) && GuidOk(c, o, q, g) && q.Some? && WellFormed(q.value)
    ensures Enter(c.children, env, ClosureFor(c, g, ctxs).value, ctx) == Lift(Interp(o, env, q.value, [ctx] + ctxs))
    decreases q, 1
  {
    var child := CompileProgram(o, q.value);
    ProgramDepths(o, q.value);
    EnteredFrame(child.depths, ctx, ctxs);
    ProgramRun(o, env, q.value, MakeFrame(ctx, child.depths, Outer(child.depths, ctxs)), [ctx] + ctxs);
  }

  // So a body never faults and returns what the tree walk returns, in every context.
  lemma BodyRun(c: Compiled, env: Env, o: Options, q: Option<Program>, g: Option<nat>, ctxs: seq<Val>)
    requires EnvOk(env) && GuidOk(c, o, q, g) && (q.Some? ==> WellFormed(q.value))
    ensures !Faulty(c.children, env, ClosureFor(c, g, ctxs))
    ensures Agree(Entered(c.children, env, ClosureFor(c, g, ctxs)), BodyOf(o, env, q, ctxs))
    decreases q, 2
  {
    if q.Some? {
      forall ctx ensures Enter(c.children, env, ClosureFor(c, g, ctxs).value, ctx)
                      == Lift(Interp(o, env, q.value, [ctx] + ctxs)) {
        EnterRun(c, env, o, q, g, ctx, ctxs);
      }
    }
  }

  // A helper that only calls its bodies answers alike on both sides.
  lemma HelperAnswers(c: Compiled, env: Env, o: Options, k: Call, helper: Helper, self: Val, args: seq<Val>,
                      hash: map<string, Val>)
    requires EnvOk(env) && CallOk(c, o, k) && CallsOnly(helper)
    ensures CallHelper(c.children, env, helper, self, args, hash,
                       ClosureFor(c, k.body, k.ctxs), ClosureFor(c, k.inverse, k.ctxs))
         == Lift(helper(self, args, hash, BodiesOf(o, env, k.s, k.ctxs)))
    decreases k.s, 1
  {
    var p, i := ClosureFor(c, k.body, k.ctxs), ClosureFor(c, k.inverse, k.ctxs);
    if HasBody(k.s) {
      BodyRun(c, env, o, ProgramOf(k.s), k.body, k.ctxs);
      BodyRun(c, env, o, InverseOf(k.s), k.inverse, k.ctxs);
      AgreeingBodies(helper, self, args, hash,
        Bodies(Entered(c.children, env, p), Entered(c.children, env, i)), BodiesOf(o, env, k.s, k.ctxs));
    }
  }

  lemma AgreeingBodies(helper: Helper, self: Val, args: seq<Val>, hash: map<string, Val>, a: Bodies, b: Bodies)
    requires CallsOnly(helper) && BodiesAgree(a, b)
    ensures helper(self, args, hash, a) == helper(self, args, hash, b)
  {
  }

  // ---- calls ----

  lemma CallShape(m: Machine, base: seq<Item>, args: seq<Val>, p: Option<Closure>, i: Option<Closure>,
                  h: map<string, Val>)
    requires m.stack == base + Piled(args) + [P(p), P(i), H(h)]
    ensures HasCall(m, |args|)
    ensures PopParams(m.stack[..|m.stack| - 3], |args|) == Some(args)
    ensures Peek(m, 0) == H(h) && Peek(m, 1) == P(i) && Peek(m, 2) == P(p)
    ensures Drop(m, |args| + 3) == m.(stack := base)
  {
    PopPiled(base, args);
    assert m.stack[..|m.stack| - 3] == base + Piled(args);
    assert m.stack[..|m.stack| - (|args| + 3)] == base;
  }

  // The meaning of a call once its arguments are known: see MustacheValue.
  function CallValue(o: Options, env: Env, k: Call, name: string, args: seq<Val>, hash: map<string, Val>, last: nat)
    : Outcome<Val>
  {
    var bodies := BodiesOf(o, env, k.s, k.ctxs);
    if name in env.helpers then env.helpers[name](ContextAt(k.ctxs, 0), args, hash, bodies)
    else if name in o.knownHelpers then Thrown
    else match FirstLookup(env, ContextAt(k.ctxs, last), name)
         case Done(v) =>
           if Truthy(v) then Thrown
           else env.helperMissing(ContextAt(k.ctxs, 0), [Str(name)] + args, hash, bodies)
         case Thrown => Thrown
  }

  // A call opcode's operands, on top of what was there.
  predicate Operands(c: Compiled, o: Options, k: Call, m: Machine, base: seq<Item>, args: seq<Val>,
                     hash: map<string, Val>)
  {
    CallOk(c, o, k)
    && m.stack == base + Piled(args)
                  + [P(ClosureFor(c, k.body, k.ctxs)), P(ClosureFor(c, k.inverse, k.ctxs)), H(hash)]
  }

  // A helper called with a block.
  lemma AnsweredRun(c: Compiled, f: Frame, env: Env, o: Options, k: Call, m: Machine, base: seq<Item>,
                    helper: Helper, front: seq<Val>, args: seq<Val>, hash: map<string, Val>)
    requires EnvOk(env) && CallsOnly(helper) && Sees(f, 0, k.ctxs) && Operands(c, o, k, m, base, args, hash)
    ensures HasCall(m, |args|)
    ensures RunCall(c, f, env, m, |args|, helper, front)
         == Finish(m.(stack := base),
              Lift(helper(ContextAt(k.ctxs, 0), front + args, hash, BodiesOf(o, env, k.s, k.ctxs))))
    decreases k.s, 2
  {
    CallShape(m, base, args, ClosureFor(c, k.body, k.ctxs), ClosureFor(c, k.inverse, k.ctxs), hash);
    HelperAnswers(c, env, o, k, helper, f.depth0, front + args, hash);
  }

  lemma RegisteredRun(c: Compiled, f: Frame, env: Env, o: Options, k: Call, m: Machine,
                      base: seq<Item>, name: string, args: seq<Val>, hash: map<string, Val>)
    requires EnvOk(env) && Sees(f, 0, k.ctxs) && name in env.helpers && Operands(c, o, k, m, base, args, hash)
    ensures Step(c, f, env, Invoke(o, |args|, name), m)
         == Finish(m.(stack := base), Lift(CallValue(o, env, k, name, args, hash, m.last)))
    decreases k.s, 3
  {
    AnsweredRun(c, f, env, o, k, m, base, env.helpers[name], [], args, hash);
    assert [] + args == args;
    var r := RunCall(c, f, env, m, |args|, env.helpers[name], []);
    assert Step(c, f, env, Invoke(o, |args|, name), m) == r;
  }

  lemma UnknownRun(c: Compiled, f: Frame, env: Env, o: Options, k: Call, m: Machine,
                   base: seq<Item>, name: string, args: seq<Val>, hash: map<string, Val>)
    requires EnvOk(env) && Sees(f, 0, k.ctxs) && Sees(f, m.last, k.ctxs)
    requires name !in env.helpers && name !in o.knownHelpers && Operands(c, o, k, m, base, args, hash)
    ensures Step(c, f, env, InvokeHelper(|args|, name), m)
         == Finish(m.(stack := base), Lift(CallValue(o, env, k, name, args, hash, m.last)))
    decreases k.s, 3
  {
    AnsweredRun(c, f, env, o, k, m, base, env.helperMissing, [Str(name)], args, hash);
    assert Step(c, f, env, InvokeHelper(|args|, name), m)
        == match FirstLookup(env, ContextAt(k.ctxs, m.last), name)
           case Thrown => Exception
           case Done(v) =>
             if Truthy(v) then Exception else RunCall(c, f, env, m, |args|, env.helperMissing, [Str(name)]);
  }

  lemma KnownAbsentRun(c: Compiled, f: Frame, env: Env, o: Options, k: Call, m: Machine,
                       base: seq<Item>, name: string, args: seq<Val>, hash: map<string, Val>)
    requires EnvOk(env) && Sees(f, 0, k.ctxs) && name !in env.helpers && name in o.knownHelpers
    requires Operands(c, o, k, m, base, args, hash)
    ensures Step(c, f, env, Invoke(o, |args|, name), m)
         == Finish(m.(stack := base), Lift(CallValue(o, env, k, name, args, hash, m.last)))
    decreases k.s, 3
  {
    AnsweredRun(c, f, env, o, k, m, base, env.helperMissing, [], args, hash);
  }

  lemma InvokeRun(c: Compiled, f: Frame, env: Env, o: Options, k: Call, m: Machine,
                  base: seq<Item>, name: string, args: seq<Val>, hash: map<string, Val>)
    requires EnvOk(env) && Sees(f, 0, k.ctxs) && Sees(f, m.last, k.ctxs) && Operands(c, o, k, m, base, args, hash)
    ensures Step(c, f, env, Invoke(o, |args|, name), m)
         == Finish(m.(stack := base), Lift(CallValue(o, env, k, name, args, hash, m.last)))
    decreases k.s, 4
  {
    if name in env.helpers {
      RegisteredRun(c, f, env, o, k, m, base, name, args, hash);
    } else if name in o.knownHelpers {
      KnownAbsentRun(c, f, env, o, k, m, base, name, args, hash);
    } else {
      UnknownRun(c, f, env, o, k, m, base, name, args, hash);
    }
  }

  // The path whose context an unknown helper falls back to is always bound.
  lemma {:induction false} LastParamSeen(f: Frame, ps: seq<Param>, last: nat, ctxs: seq<Val>)
    requires Sees(f, last, ctxs) && FrameOk(f, EmitParams(ps).depths, ctxs)
    ensures Sees(f, LastOfParams(ps, last), ctxs)
  {
    if |ps| > 0 {
      FramePart(f, EmitParams(ps[1..]).depths, EmitParam(ps[0]).depths, ctxs);
      LastParamSeen(f, ps[1..], last, ctxs);
      if ps[0].PathParam? { assert ps[0].id.depth in EmitParam(ps[0]).depths; }
    }
  }

  lemma {:induction false} LastPairSeen(f: Frame, pairs: seq<(string, Param)>, last: nat, ctxs: seq<Val>)
    requires Sees(f, last, ctxs) && FrameOk(f, EmitPairs(pairs).depths, ctxs)
    ensures Sees(f, LastOfPairs(pairs, last), ctxs)
  {
    if |pairs| > 0 {
      var n := |pairs| - 1;
      var p := pairs[n].1;
      FramePart(f, EmitPairs(pairs[..n]).depths, EmitParam(p).depths + [], ctxs);
      LastPairSeen(f, pairs[..n], last, ctxs);
      if p.PathParam? { assert p.id.depth in EmitParam(p).depths + []; }
    }
  }

  lemma HashDepths(mu: Mustache)
    ensures EmitHash(mu).depths == if mu.hash.None? then [] else EmitPairs(mu.hash.value).depths
  {
    if mu.hash.Some? { assert [] + (EmitPairs(mu.hash.value).depths + []) == EmitPairs(mu.hash.value).depths; }
  }

  // From the parameters on the stack to the value of the call.
  lemma HelperTail(c: Compiled, f: Frame, env: Env, o: Options, k: Call, mu: Mustache, m: Machine,
                   base: seq<Item>, args: seq<Val>)
    requires EnvOk(env)
    requires CallOk(c, o, k) && KidsSeen(f, o, k) && Sees(f, m.last, k.ctxs) && m.hash == map[]
    requires FrameOk(f, EmitHash(mu).depths, k.ctxs)
    requires m.stack == base + Piled(args)
    ensures RunOps(c, f, env, [PushProgram(k.body), PushProgram(k.inverse)]
              + (EmitHash(mu).ops + [Invoke(o, |args|, Name(mu))]), m)
         == Finish(m.(stack := base, last := LastOfHash(mu, m.last)), Lift(
              match HashOf(env, mu, k.ctxs)
              case Done(h) => CallValue(o, env, k, Name(mu), args, h, LastOfHash(mu, m.last))
              case Thrown => Thrown))
    decreases k.s, 5
  {
    var hash, call := EmitHash(mu), Invoke(o, |args|, Name(mu));
    RunJoin(c, f, env, [PushProgram(k.body), PushProgram(k.inverse)], hash.ops + [call], m);
    KidsRun(c, f, env, o, k, m);
    var m2 := PushKids(c, o, k, m);
    HashRun(c, f, env, mu, m2, k.ctxs);
    RunSnoc(c, f, env, hash.ops, call, m2);
    var h := HashOf(env, mu, k.ctxs);
    if h.Done? {
      var m3 := Push(m2.(last := LastOfHash(mu, m2.last)), H(h.value));
      LastHashSeen(f, mu, m.last, k.ctxs);
      InvokeRun(c, f, env, o, k, m3, base, Name(mu), args, h.value);
    }
  }

  lemma LastHashSeen(f: Frame, mu: Mustache, last: nat, ctxs: seq<Val>)
    requires Sees(f, last, ctxs) && FrameOk(f, EmitHash(mu).depths, ctxs)
    ensures Sees(f, LastOfHash(mu, last), ctxs)
  {
    HashDepths(mu);
    if mu.hash.Some? { LastPairSeen(f, mu.hash.value, last, ctxs); }
  }

  lemma HelperRun(c: Compiled, f: Frame, env: Env, o: Options, k: Call, mu: Mustache, m: Machine)
    requires EnvOk(env)
    requires CallOk(c, o, k) && KidsSeen(f, o, k) && Sees(f, m.last, k.ctxs) && m.hash == map[]
    requires FrameOk(f, EmitHelper(o, mu, k.body, k.inverse).depths, k.ctxs)
    requires Classify(o, mu) == HelperKind
    ensures RunOps(c, f, env, EmitHelper(o, mu, k.body, k.inverse).ops, m)
         == Finish(m.(last := LastOfMustache(o, mu, m.last)), Lift(MustacheValue(o, env, k.s, mu, k.ctxs, m.last)))
    decreases k.s, 6
  {
    var params, hash := EmitParams(mu.params), EmitHash(mu);
    var tail := [PushProgram(k.body), PushProgram(k.inverse)] + (hash.ops + [Invoke(o, |mu.params|, Name(mu))]);
    FramePart(f, params.depths, [] + (hash.depths + []), k.ctxs);
    assert [] + (hash.depths + []) == hash.depths;
    assert EmitHelper(o, mu, k.body, k.inverse).ops == params.ops + tail;
    RunJoin(c, f, env, params.ops, tail, m);
    ParamsRun(c, f, env, mu.params, m, k.ctxs);
    var args := ParamValues(env, mu.params, k.ctxs);
    if args.Done? {
      var m1 := m.(last := LastOfParams(mu.params, m.last), stack := m.stack + Piled(args.value));
      LastParamSeen(f, mu.params, m.last, k.ctxs);
      ParamCount(env, mu.params, k.ctxs);
      HelperTail(c, f, env, o, k, mu, m1, m.stack, args.value);
    }
  }

  lemma {:induction false} ParamCount(env: Env, ps: seq<Param>, ctxs: seq<Val>)
    ensures ParamValues(env, ps, ctxs).Done? ==> |ParamValues(env, ps, ctxs).value| == |ps|
  {
    if |ps| > 0 { ParamCount(env, ps[1..], ctxs); }
  }

  lemma AmbiguousStep(c: Compiled, f: Frame, env: Env, o: Options, k: Call, mu: Mustache, m: Machine, last: nat)
    requires EnvOk(env)
    requires CallOk(c, o, k) && Sees(f, 0, k.ctxs) && IdOk(mu.id)
    requires Classify(o, mu) == AmbiguousKind && m.last == 0
    ensures Step(c, f, env, InvokeAmbiguous(Name(mu)), PushKids(c, o, k, m))
         == Finish(m.(lastHelper := Name(mu)), Lift(MustacheValue(o, env, k.s, mu, k.ctxs, last)))
    decreases k.s, 2
  {
    var m2 := PushKids(c, o, k, m);
    assert m2.stack[..|m2.stack| - 2] == m.stack;
    if Name(mu) in env.helpers {
      HelperAnswers(c, env, o, k, env.helpers[Name(mu)], f.depth0, [], map[]);
    }
  }

  lemma AmbiguousRun(c: Compiled, f: Frame, env: Env, o: Options, k: Call, mu: Mustache, m: Machine)
    requires EnvOk(env)
    requires CallOk(c, o, k) && KidsSeen(f, o, k) && IdOk(mu.id)
    requires Classify(o, mu) == AmbiguousKind
    ensures RunOps(c, f, env, EmitAmbiguous(mu, k.body, k.inverse).ops, m)
         == Finish(m.(last := 0, lastHelper := Name(mu)), Lift(MustacheValue(o, env, k.s, mu, k.ctxs, m.last)))
    decreases k.s, 3
  {
    var kids := [PushProgram(k.body), PushProgram(k.inverse)];
    assert EmitAmbiguous(mu, k.body, k.inverse).ops == ([GetContext(0)] + kids) + [InvokeAmbiguous(Name(mu))];
    RunOne(c, f, env, GetContext(0), m);
    RunJoin(c, f, env, [GetContext(0)], kids, m);
    KidsRun(c, f, env, o, k, m.(last := 0));
    RunSnoc(c, f, env, [GetContext(0)] + kids, InvokeAmbiguous(Name(mu)), m);
    AmbiguousStep(c, f, env, o, k, mu, m.(last := 0), m.last);
  }

  lemma SimpleRun(c: Compiled, f: Frame, env: Env, o: Options, k: Call, mu: Mustache, m: Machine)
    requires FrameOk(f, EmitSimple(mu).depths, k.ctxs)
    requires Classify(o, mu) == SimpleKind
    ensures RunOps(c, f, env, EmitSimple(mu).ops, m)
         == Finish(m.(last := mu.id.depth), Lift(MustacheValue(o, env, k.s, mu, k.ctxs, m.last)))
  {
    assert mu.id.depth in EmitSimple(mu).depths;
    IdRun(c, f, env, mu.id, m, k.ctxs);
    RunSnoc(c, f, env, EmitId(mu.id).ops, ResolvePossibleLambda, m);
  }

  // The machine after a mustache, but for the value it pushed.
  function AfterMustache(o: Options, mu: Mustache, m: Machine): Machine {
    m.(last := LastOfMustache(o, mu, m.last),
       lastHelper := if Classify(o, mu).AmbiguousKind? then Name(mu) else m.lastHelper)
  }

  // Any mustache pushes exactly the value it has in the tree walk, or raises exactly when
  // the tree walk does.
  lemma MustacheRun(c: Compiled, f: Frame, env: Env, o: Options, k: Call, mu: Mustache, m: Machine)
    requires EnvOk(env)
    requires CallOk(c, o, k) && KidsSeen(f, o, k) && Sees(f, m.last, k.ctxs) && m.hash == map[] && IdOk(mu.id)
    requires FrameOk(f, EmitMustache(o, mu, k.body, k.inverse).depths, k.ctxs)
    ensures RunOps(c, f, env, EmitMustache(o, mu, k.body, k.inverse).ops, m)
         == Finish(AfterMustache(o, mu, m), Lift(MustacheValue(o, env, k.s, mu, k.ctxs, m.last)))
    decreases k.s, 7
  {
    match Classify(o, mu)
    case HelperKind => HelperRun(c, f, env, o, k, mu, m);
    case AmbiguousKind => AmbiguousRun(c, f, env, o, k, mu, m);
    case SimpleKind => SimpleRun(c, f, env, o, k, mu, m);
  }

  // ---- statements ----

  // A statement's value goes to the buffer, or out of a program of one statement.
  function Shown(c: Compiled, env: Env, m: Machine, r: Outcome<Option<Val>>): Run<Machine> {
    match r
    case Done(Some(v)) => Emitted(c, env, m, v)
    case Done(None) => Halted(m)
    case Thrown => Exception
  }

  function AfterStatement(o: Options, s: Statement, m: Machine): Machine {
    match s
    case Content(_) => m
    case Comment => m
    case Value(mu) => AfterMustache(o, mu, m)
    case Block(head, _, _) => AfterMustache(o, head, m)
  }

  lemma AppendRun(c: Compiled, f: Frame, env: Env, op: Op, m: Machine, v: Val)
    requires op.Append? || op.AppendEscaped?
    ensures Step(c, f, env, op, Push(m, V(v)))
         == Emitted(c, env, m, if op.Append? then Kept(v) else Str(Escaped(env, v)))
  {
    assert (m.stack + [V(v)])[..|m.stack|] == m.stack;
  }

  lemma ValueRun(c: Compiled, f: Frame, env: Env, o: Options, k: Call, m: Machine)
    requires EnvOk(env)
    requires k.s.Value? && CallOk(c, o, k) && Sees(f, m.last, k.ctxs) && m.hash == map[]
    requires FrameOk(f, EmitStatement(o, k.s, 0).depths, k.ctxs)
    ensures RunOps(c, f, env, EmitStatement(o, k.s, 0).ops, m)
         == Shown(c, env, AfterStatement(o, k.s, m), StatementValue(o, env, k.s, k.ctxs, m.last))
    decreases k.s, 8
  {
    var mu := k.s.m;
    var op := if mu.escaped && !o.noEscape then AppendEscaped else Append;
    var e := EmitMustache(o, mu, None, None);
    assert e.depths + [] == e.depths;
    MustacheRun(c, f, env, o, k, mu, m);
    RunSnoc(c, f, env, e.ops, op, m);
    var v := MustacheValue(o, env, k.s, mu, k.ctxs, m.last);
    if v.Done? { AppendRun(c, f, env, op, AfterMustache(o, mu, m), v.value); }
  }

  // What a block does to the value of its head.
  function TailValue(o: Options, env: Env, k: Call, v: Val): Outcome<Val>
    requires k.s.Block?
  {
    if IsBlockValue(o, env, k.s.head)
    then env.blockHelperMissing(ContextAt(k.ctxs, 0), [v], map[], BodiesOf(o, env, k.s, k.ctxs))
    else Done(v)
  }

  lemma BlockValueRun(c: Compiled, f: Frame, env: Env, o: Options, k: Call, m: Machine, base: Machine, v: Val)
    requires EnvOk(env) && k.s.Block? && CallOk(c, o, k) && Sees(f, 0, k.ctxs)
    requires m == Push(PushKids(c, o, k, Push(base, V(v))), H(map[]))
    ensures HasBlockValue(m)
    ensures RunBlockValue(c, f, env, m) == Finish(base, Lift(
              env.blockHelperMissing(ContextAt(k.ctxs, 0), [v], map[], BodiesOf(o, env, k.s, k.ctxs))))
    decreases k.s, 2
  {
    assert m.stack[..|m.stack| - 4] == base.stack;
    HelperAnswers(c, env, o, k, env.blockHelperMissing, f.depth0, [v], map[]);
  }

  lemma TailStep(c: Compiled, f: Frame, env: Env, o: Options, k: Call, m: Machine, base: Machine, v: Val)
    requires EnvOk(env)
    requires k.s.Block? && CallOk(c, o, k) && Sees(f, 0, k.ctxs) && !Classify(o, k.s.head).HelperKind?
    requires m == Push(PushKids(c, o, k, Push(base, V(v))), H(map[]))
    requires Classify(o, k.s.head).AmbiguousKind? ==> m.lastHelper == Name(k.s.head)
    ensures Step(c, f, env, if Classify(o, k.s.head).AmbiguousKind? then AmbiguousBlockValue else BlockValue, m)
         == Finish(base, Lift(TailValue(o, env, k, v)))
    decreases k.s, 3
  {
    BlockValueRun(c, f, env, o, k, m, base, v);
    if Classify(o, k.s.head).AmbiguousKind? {
      AmbiguousTailStep(c, f, env, m, base, v);
    } else {
      assert Step(c, f, env, BlockValue, m) == RunBlockValue(c, f, env, m);
    }
  }

  lemma AmbiguousTailStep(c: Compiled, f: Frame, env: Env, m: Machine, base: Machine, v: Val)
    requires HasBlockValue(m) && |m.stack| == |base.stack| + 4 && m == base.(stack := m.stack)
    requires m.stack[..|base.stack| + 1] == base.stack + [V(v)]
    ensures Step(c, f, env, AmbiguousBlockValue, m)
         == if m.lastHelper in env.helpers then Halted(Push(base, V(v))) else RunBlockValue(c, f, env, m)
  {
  }

  lemma TailRun(c: Compiled, f: Frame, env: Env, o: Options, k: Call, m: Machine, v: Val)
    requires EnvOk(env)
    requires k.s.Block? && CallOk(c, o, k) && KidsSeen(f, o, k)
    requires Classify(o, k.s.head).AmbiguousKind? ==> m.lastHelper == Name(k.s.head)
    ensures RunOps(c, f, env, EmitBlockTail(o, k.s.head, k.body, k.inverse), Push(m, V(v)))
         == Finish(m, Lift(TailValue(o, env, k, v)))
    decreases k.s, 4
  {
    var kind := Classify(o, k.s.head);
    if !kind.HelperKind? {
      var kids := [PushProgram(k.body), PushProgram(k.inverse)];
      var op := if kind.AmbiguousKind? then AmbiguousBlockValue else BlockValue;
      var m1 := Push(m, V(v));
      assert EmitBlockTail(o, k.s.head, k.body, k.inverse) == (kids + [EmptyHash]) + [op];
      KidsRun(c, f, env, o, k, m1);
      RunSnoc(c, f, env, kids, EmptyHash, m1);
      RunSnoc(c, f, env, kids + [EmptyHash], op, m1);
      TailStep(c, f, env, o, k, Push(PushKids(c, o, k, m1), H(map[])), m, v);
    }
  }

  lemma TailShown(c: Compiled, f: Frame, env: Env, o: Options, k: Call, m: Machine, v: Val)
    requires EnvOk(env)
    requires k.s.Block? && CallOk(c, o, k) && KidsSeen(f, o, k)
    requires Classify(o, k.s.head).AmbiguousKind? ==> m.lastHelper == Name(k.s.head)
    ensures RunOps(c, f, env, EmitBlockTail(o, k.s.head, k.body, k.inverse) + [Append], Push(m, V(v)))
         == match TailValue(o, env, k, v)
            case Done(w) => Emitted(c, env, m, Kept(w))
            case Thrown => Exception
    decreases k.s, 5
  {
    TailRun(c, f, env, o, k, m, v);
    RunSnoc(c, f, env, EmitBlockTail(o, k.s.head, k.body, k.inverse), Append, Push(m, V(v)));
    var w := TailValue(o, env, k, v);
    if w.Done? { AppendRun(c, f, env, Append, m, w.value); }
  }

  lemma BlockFrame(f: Frame, o: Options, k: Call, guid: nat)
    requires k.s.Block? && FrameOk(f, EmitStatement(o, k.s, guid).depths, k.ctxs)
    requires k.body == (if k.s.program.Some? then Some(guid) else None)
    requires k.inverse == (if k.s.inverse.Some? then Some(guid + if k.s.program.Some? then 1 else 0) else None)
    ensures KidsSeen(f, o, k) && FrameOk(f, EmitMustache(o, k.s.head, k.body, k.inverse).depths, k.ctxs)
  {
    var kid1, kid2 := EmitChild(o, k.s.program), EmitChild(o, k.s.inverse);
    var e := EmitMustache(o, k.s.head, k.body, k.inverse);
    FramePart(f, kid1.depths + kid2.depths, e.depths + [], k.ctxs);
    FramePart(f, kid1.depths, kid2.depths, k.ctxs);
    assert e.depths + [] == e.depths;
  }

  // Head and tail of a block, one after the other.
  lemma BlockCodeRun(c: Compiled, f: Frame, env: Env, o: Options, k: Call, m: Machine)
    requires EnvOk(env)
    requires k.s.Block? && CallOk(c, o, k) && Sees(f, m.last, k.ctxs) && m.hash == map[]
    requires KidsSeen(f, o, k) && FrameOk(f, EmitMustache(o, k.s.head, k.body, k.inverse).depths, k.ctxs)
    ensures RunOps(c, f, env, EmitMustache(o, k.s.head, k.body, k.inverse).ops
                              + (EmitBlockTail(o, k.s.head, k.body, k.inverse) + [Append]), m)
         == Shown(c, env, AfterMustache(o, k.s.head, m), StatementValue(o, env, k.s, k.ctxs, m.last))
    decreases k.s, 8
  {
    var head := k.s.head;
    var e, tail := EmitMustache(o, head, k.body, k.inverse), EmitBlockTail(o, head, k.body, k.inverse);
    MustacheRun(c, f, env, o, k, head, m);
    RunJoin(c, f, env, e.ops, tail + [Append], m);
    var v := MustacheValue(o, env, k.s, head, k.ctxs, m.last);
    if v.Done? { TailShown(c, f, env, o, k, AfterMustache(o, head, m), v.value); }
    BlockIs(o, env, k, m.last);
  }

  lemma BlockIs(o: Options, env: Env, k: Call, last: nat)
    requires k.s.Block?
    ensures StatementValue(o, env, k.s, k.ctxs, last)
         == match MustacheValue(o, env, k.s, k.s.head, k.ctxs, last)
            case Done(v) => (match TailValue(o, env, k, v) case Done(w) => Done(Some(Kept(w))) case Thrown => Thrown)
            case Thrown => Thrown
  {
  }

  lemma BlockRun(c: Compiled, f: Frame, env: Env, o: Options, k: Call, guid: nat, m: Machine)
    requires EnvOk(env)
    requires k.s.Block? && CallOk(c, o, k) && Sees(f, m.last, k.ctxs) && m.hash == map[]
    requires FrameOk(f, EmitStatement(o, k.s, guid).depths, k.ctxs)
    requires k.body == (if k.s.program.Some? then Some(guid) else None)
    requires k.inverse == (if k.s.inverse.Some? then Some(guid + if k.s.program.Some? then 1 else 0) else None)
    ensures RunOps(c, f, env, EmitStatement(o, k.s, guid).ops, m)
         == Shown(c, env, AfterStatement(o, k.s, m), StatementValue(o, env, k.s, k.ctxs, m.last))
    decreases k.s, 9
  {
    BlockFrame(f, o, k, guid);
    BlockCodeRun(c, f, env, o, k, m);
    BlockOps(o, k, guid);
  }

  lemma BlockOps(o: Options, k: Call, guid: nat)
    requires k.s.Block?
    requires k.body == (if k.s.program.Some? then Some(guid) else None)
    requires k.inverse == (if k.s.inverse.Some? then Some(guid + if k.s.program.Some? then 1 else 0) else None)
    ensures EmitStatement(o, k.s, guid).ops
         == EmitMustache(o, k.s.head, k.body, k.inverse).ops
            + (EmitBlockTail(o, k.s.head, k.body, k.inverse) + [Append])
  {
  }

  // ---- only blocks have nested programs ----

  lemma {:induction false} ParamsHaveNoChildren(ps: seq<Param>)
    ensures EmitParams(ps).children == []
  {
    if |ps| > 0 { ParamsHaveNoChildren(ps[1..]); }
  }

  lemma {:induction false} PairsHaveNoChildren(pairs: seq<(string, Param)>)
    ensures EmitPairs(pairs).children == []
  {
    if |pairs| > 0 { PairsHaveNoChildren(pairs[..|pairs| - 1]); }
  }

  lemma HeadChildren(o: Options, mu: Mustache, g1: Option<nat>, g2: Option<nat>)
    ensures EmitMustache(o, mu, g1, g2).children == []
  {
    ParamsHaveNoChildren(mu.params);
    if mu.hash.Some? { PairsHaveNoChildren(mu.hash.value); }
    assert EmitHash(mu).children == [];
    assert EmitHelper(o, mu, g1, g2).children == [];
  }

  predicate ChildrenAt(c: Compiled, guid: nat, kids: seq<Compiled>) {
    guid + |kids| <= |c.children| && c.children[guid..guid + |kids|] == kids
  }

  lemma BlockEmits(o: Options, s: Statement, guid: nat)
    requires s.Block?
    ensures EmitStatement(o, s, guid).children == EmitChild(o, s.program).children + EmitChild(o, s.inverse).children
  {
    HeadChildren(o, s.head, if s.program.Some? then Some(guid) else None,
      if s.inverse.Some? then Some(guid + if s.program.Some? then 1 else 0) else None);
  }

  lemma BlockChildren(c: Compiled, o: Options, s: Statement, guid: nat)
    requires s.Block? && ChildrenAt(c, guid, EmitStatement(o, s, guid).children)
    ensures GuidOk(c, o, s.program, if s.program.Some? then Some(guid) else None)
    ensures GuidOk(c, o, s.inverse,
              if s.inverse.Some? then Some(guid + if s.program.Some? then 1 else 0) else None)
  {
    var a, b := EmitChild(o, s.program).children, EmitChild(o, s.inverse).children;
    BlockEmits(o, s, guid);
    PartChildren(c, guid, a, b);
    FirstChild(c, o, guid, s.program);
    FirstChild(c, o, guid + |a|, s.inverse);
  }

  lemma FirstChild(c: Compiled, o: Options, guid: nat, q: Option<Program>)
    requires ChildrenAt(c, guid, EmitChild(o, q).children)
    ensures q.Some? ==> guid < |c.children| && c.children[guid] == CompileProgram(o, q.value)
  {
    if q.Some? { assert c.children[guid] == c.children[guid..guid + 1][0]; }
  }

  lemma PartChildren(c: Compiled, guid: nat, a: seq<Compiled>, b: seq<Compiled>)
    requires ChildrenAt(c, guid, a + b)
    ensures ChildrenAt(c, guid, a) && ChildrenAt(c, guid + |a|, b)
  {
    var all := c.children[guid..guid + |a + b|];
    assert all[..|a|] == a && all[|a|..] == b;
    assert c.children[guid..guid + |a|] == all[..|a|];
    assert c.children[guid + |a|..guid + |a| + |b|] == all[|a|..];
  }

  // The code of one statement, started anywhere in a program with any stack below it,
  // leaves that stack as it was and appends the statement's value, or returns it if it is
  // the program's only statement; it raises exactly when the tree walk does.
  lemma StatementRun(c: Compiled, f: Frame, env: Env, o: Options, s: Statement, guid: nat, m: Machine, ctxs: seq<Val>)
    requires EnvOk(env) && StatementOk(s) && Sees(f, m.last, ctxs) && m.hash == map[]
    requires FrameOk(f, EmitStatement(o, s, guid).depths, ctxs)
    requires ChildrenAt(c, guid, EmitStatement(o, s, guid).children)
    ensures RunOps(c, f, env, EmitStatement(o, s, guid).ops, m)
         == Shown(c, env, AfterStatement(o, s, m), StatementValue(o, env, s, ctxs, m.last))
    decreases s, 10
  {
    match s
    case Content(text) => RunOne(c, f, env, AppendContent(text), m);
    case Comment =>
    case Value(mu) => ValueRun(c, f, env, o, Call(s, None, None, ctxs), m);
    case Block(head, program, inverse) =>
      var g1 := if program.Some? then Some(guid) else None;
      var g2 := if inverse.Some? then Some(guid + if program.Some? then 1 else 0) else None;
      BlockChildren(c, o, s, guid);
      BlockRun(c, f, env, o, Call(s, g1, g2, ctxs), guid, m);
  }

  // ---- the context selected last is bound ----

  lemma LastSeen(f: Frame, o: Options, mu: Mustache, g1: Option<nat>, g2: Option<nat>, last: nat, ctxs: seq<Val>)
    requires IdOk(mu.id) && Sees(f, last, ctxs) && FrameOk(f, EmitMustache(o, mu, g1, g2).depths, ctxs)
    ensures Sees(f, LastOfMustache(o, mu, last), ctxs)
  {
    match Classify(o, mu)
    case HelperKind =>
      var params, hash := EmitParams(mu.params), EmitHash(mu);
      FramePart(f, params.depths, [] + (hash.depths + []), ctxs);
      assert [] + (hash.depths + []) == hash.depths;
      LastParamSeen(f, mu.params, last, ctxs);
      LastHashSeen(f, mu, LastOfParams(mu.params, last), ctxs);
    case AmbiguousKind =>
    case SimpleKind => assert mu.id.depth in EmitMustache(o, mu, g1, g2).depths;
  }

  lemma StatementLastSeen(f: Frame, o: Options, s: Statement, guid: nat, last: nat, ctxs: seq<Val>)
    requires StatementOk(s) && Sees(f, last, ctxs) && FrameOk(f, EmitStatement(o, s, guid).depths, ctxs)
    ensures Sees(f, LastOfStatement(o, s, last), ctxs)
  {
    match s
    case Content(_) =>
    case Comment =>
    case Value(mu) =>
      FramePart(f, EmitMustache(o, mu, None, None).depths, [], ctxs);
      LastSeen(f, o, mu, None, None, last, ctxs);
    case Block(head, program, inverse) =>
      var g1 := if program.Some? then Some(guid) else None;
      var g2 := if inverse.Some? then Some(guid + if program.Some? then 1 else 0) else None;
      var e := EmitMustache(o, head, g1, g2);
      FramePart(f, Join(EmitChild(o, program), EmitChild(o, inverse)).depths, e.depths + [], ctxs);
      FramePart(f, e.depths, [], ctxs);
      LastSeen(f, o, head, g1, g2, last, ctxs);
  }

  // Whatever was compiled last, its context is bound.
  lemma {:induction false} StatementsLastSeen(f: Frame, o: Options, ss: seq<Statement>, ctxs: seq<Val>)
    requires forall s :: s in ss ==> StatementOk(s)
    requires FrameOk(f, EmitStatements(o, ss).depths, ctxs)
    ensures Sees(f, LastOfStatements(o, ss), ctxs)
  {
    if |ss| > 0 {
      var init, s := ss[..|ss| - 1], ss[|ss| - 1];
      var before := EmitStatements(o, init);
      var here := EmitStatement(o, s, |before.children|);
      FramePart(f, before.depths, here.depths, ctxs);
      StatementsLastSeen(f, o, init, ctxs);
      StatementLastSeen(f, o, s, |before.children|, LastOfStatements(o, init), ctxs);
    }
  }

  // ---- programs ----

  // The machine after a list of statements, but for the text.
  function AfterStatements(o: Options, ss: seq<Statement>): (m: Machine)
    ensures m.stack == [] && m.out == "" && m.hash == map[] && m.last == LastOfStatements(o, ss)
  {
    if |ss| == 0 then START else AfterStatement(o, ss[|ss| - 1], AfterStatements(o, ss[..|ss| - 1]))
  }

  function WithText(m: Machine, r: Outcome<string>): Run<Machine> {
    match r
    case Done(text) => Halted(m.(out := text))
    case Thrown => Exception
  }

  // A statement run after some text.
  lemma LaterStatement(c: Compiled, f: Frame, env: Env, o: Options, s: Statement, guid: nat, m: Machine,
                       before: Outcome<string>, ctxs: seq<Val>)
    requires EnvOk(env) && StatementOk(s) && Sees(f, m.last, ctxs) && m.hash == map[] && !c.isSimple
    requires FrameOk(f, EmitStatement(o, s, guid).depths, ctxs)
    requires ChildrenAt(c, guid, EmitStatement(o, s, guid).children)
    ensures before.Done? ==>
      RunOps(c, f, env, EmitStatement(o, s, guid).ops, m.(out := before.value))
      == WithText(AfterStatement(o, s, m), Concat(before, InterpStatement(o, env, s, ctxs, m.last)))
    decreases s, 11
  {
    if before.Done? {
      StatementRun(c, f, env, o, s, guid, m.(out := before.value), ctxs);
      AfterStatementText(o, s, m, before.value);
      assert before.value + "" == before.value;
    }
  }

  lemma AfterStatementText(o: Options, s: Statement, m: Machine, text: string)
    ensures AfterStatement(o, s, m.(out := text)) == AfterStatement(o, s, m).(out := text)
  {
  }

  lemma TextsJoin(c: Compiled, f: Frame, env: Env, a: seq<Op>, b: seq<Op>, m0: Machine, r0: Outcome<string>,
                  m1: Machine, r1: Outcome<string>)
    requires RunOps(c, f, env, a, START) == WithText(m0, r0)
    requires r0.Done? ==> RunOps(c, f, env, b, m0.(out := r0.value)) == WithText(m1, Concat(r0, r1))
    ensures RunOps(c, f, env, a + b, START) == WithText(m1, Concat(r0, r1))
  {
    RunJoin(c, f, env, a, b, START);
  }

  lemma StatementsRun(c: Compiled, f: Frame, env: Env, o: Options, ss: seq<Statement>, ctxs: seq<Val>)
    requires EnvOk(env) && !c.isSimple && forall s :: s in ss ==> StatementOk(s)
    requires FrameOk(f, EmitStatements(o, ss).depths, ctxs)
    requires ChildrenAt(c, 0, EmitStatements(o, ss).children)
    ensures RunOps(c, f, env, EmitStatements(o, ss).ops, START)
         == WithText(AfterStatements(o, ss), InterpStatements(o, env, ss, ctxs))
    decreases ss, 12
  {
    if |ss| == 0 {
      assert RunOps(c, f, env, [], START) == Halted(START);
    } else {
      var init, s := ss[..|ss| - 1], ss[|ss| - 1];
      var before := EmitStatements(o, init);
      var here := EmitStatement(o, s, |before.children|);
      var m := AfterStatements(o, init);
      assert EmitStatements(o, ss) == Join(before, here);
      FramePart(f, before.depths, here.depths, ctxs);
      PartChildren(c, 0, before.children, here.children);
      StatementsRun(c, f, env, o, init, ctxs);
      StatementsLastSeen(f, o, init, ctxs);
      LaterStatement(c, f, env, o, s, |before.children|, m, InterpStatements(o, env, init, ctxs), ctxs);
      TextsJoin(c, f, env, before.ops, here.ops, m, InterpStatements(o, env, init, ctxs),
        AfterStatement(o, s, m), InterpStatement(o, env, s, ctxs, m.last));
    }
  }

  // A program of one statement returns from it, or falls off its end.
  lemma OneStatementRun(c: Compiled, f: Frame, env: Env, o: Options, ss: seq<Statement>, ctxs: seq<Val>)
    requires EnvOk(env) && |ss| == 1 && StatementOk(ss[0])
    requires FrameOk(f, EmitStatements(o, ss).depths, ctxs)
    requires ChildrenAt(c, 0, EmitStatements(o, ss).children)
    ensures RunOps(c, f, env, EmitStatements(o, ss).ops, START)
         == Shown(c, env, AfterStatement(o, ss[0], START), StatementValue(o, env, ss[0], ctxs, 0))
    ensures AfterStatement(o, ss[0], START).stack == []
    decreases ss[0], 11
  {
    var e := EmitStatement(o, ss[0], 0);
    assert ss[..0] == [];
    assert EmitStatements(o, []) == Ops([]);
    assert [] + e.ops == e.ops && [] + e.depths == e.depths && [] + e.children == e.children;
    assert EmitStatements(o, ss) == e;
    StatementRun(c, f, env, o, ss[0], 0, START, ctxs);
  }

  // Compiler correctness.  In every frame that binds the program's depths to the contexts
  // around it, the compiled program returns what the tree walk returns, raises exactly
  // when the tree walk does, and never faults.
  lemma ProgramRun(o: Options, env: Env, p: Program, f: Frame, ctxs: seq<Val>)
    requires EnvOk(env) && WellFormed(p) && FrameOk(f, CompileProgram(o, p).depths, ctxs)
    ensures RunProgram(CompileProgram(o, p), f, env) == Lift(Interp(o, env, p, ctxs))
    decreases p, 0
  {
    var c, e := CompileProgram(o, p), EmitStatements(o, p.statements);
    ProgramDepths(o, p);
    forall d | d in e.depths ensures Sees(f, d, ctxs) { if d != 0 { assert d in c.depths; } }
    if |p.statements| == 1 {
      OneStatementRun(c, f, env, o, p.statements, ctxs);
    } else {
      StatementsRun(c, f, env, o, p.statements, ctxs);
    }
  }

  // Handlebars.compile(...)(ctx): rendering the compiled template is walking the tree.
  lemma TemplateRun(o: Options, env: Env, p: Program, c: Compiled, ctx: Val)
    requires EnvOk(env) && WellFormed(p) && c == CompileProgram(o, p)
    ensures RunTemplate(c, env, ctx) == Lift(Interp(o, env, p, [ctx]))
  {
    var f := MakeFrame(ctx, c.depths, NoArguments(|c.depths|));
    ProgramDepths(o, p);
    forall d | d in c.depths ensures Sees(f, d, [ctx]) {
      assert 0 <= IndexOf(c.depths, d) < |c.depths|;
    }
    ProgramRun(o, env, p, f, [ctx]);
  }
}
