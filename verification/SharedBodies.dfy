// Templates whose nested programs are not sharable.
module SharedBodies {
  import opened Wrappers
  import opened Template
  import opened Opcodes
  import opened Emit
  import opened DepthLists
  import opened Running
  import opened CompilerCorrect
  import opened ProgramSharing
  import opened SharedReturn
  import opened Grafts
  import opened Linking
  import opened Rendering
  import opened LinkedTemplates

  function Name1(name: string): Id { Id(0, [name], true) }

  // {{#each name}} body {{/each}}
  function Loop(name: string, body: seq<Statement>): Statement {
    Block(Mustache(Name1("each"), [PathParam(Name1(name))], None, true), Some(Program(body)), None)
  }

  // {{#each xs}} first {{/each}}{{#each ys}} second {{/each}}
  function TwoLoops(first: seq<Statement>, second: seq<Statement>): seq<Statement> {
    [Loop("xs", first), Loop("ys", second)]
  }

  // A context with the arrays xs and ys, and the each helper.
  function Arrays(xs: seq<Val>, ys: seq<Val>): Env {
    Env(map["each" := Looping], (_, _, _, _) => Done(Null), (_, _, _, _) => Done(Null),
        (_, name) => Arr(if name == "xs" then xs else ys), _ => "")
  }

  lemma ArraysAreOk(xs: seq<Val>, ys: seq<Val>)
    ensures EnvOk(Arrays(xs, ys))
  {
    LoopingCallsOnly();
  }

  lemma LoopText(o: Options, xs: seq<Val>, ys: seq<Val>, name: string, body: seq<Statement>, ctx: Val, last: nat)
    requires ctx != Undefined && ctx != Null && (name == "xs" || name == "ys")
    ensures InterpStatement(o, Arrays(xs, ys), Loop(name, body), [ctx], last)
         == Each(Plain(), BodyOf(o, Arrays(xs, ys), Some(Program(body)), [ctx]), if name == "xs" then xs else ys)
  {
    var env, s := Arrays(xs, ys), Loop(name, body);
    var items := if name == "xs" then xs else ys;
    var m := s.head;
    assert Name1(name).parts[1..] == [];
    assert PathValue(env, Name1(name), [ctx]) == Done(Arr(items));
    assert m.params[1..] == [];
    assert ParamValues(env, [], [ctx]) == Done([]);
    assert ParamValue(env, m.params[0], [ctx]) == Done(Arr(items)) && [Arr(items)] + [] == [Arr(items)];
    assert ParamValues(env, m.params, [ctx]) == Done([Arr(items)]);
    assert Classify(o, m) == HelperKind;
    assert MustacheValue(o, env, s, m, [ctx], last)
        == Looping(ctx, [Arr(items)], map[], BodiesOf(o, env, s, [ctx]));
    LoopingText(o, env, s, ctx, items);
    assert !IsBlockValue(o, env, m);
  }

  // What each returns, as text.
  lemma LoopingText(o: Options, env: Env, s: Statement, ctx: Val, items: seq<Val>)
    requires s.Block? && s.program.Some? && s.inverse.None?
    ensures var text := Each(Plain(), BodyOf(o, env, s.program, [ctx]), items);
      Looping(ctx, [Arr(items)], map[], BodiesOf(o, env, s, [ctx]))
      == if text.Done? then Done(Str(text.value)) else Thrown
  {
    assert HasBody(s);
    assert BodyOf(o, env, s.inverse, [ctx])(ctx) == Done(Str(""));
  }

  lemma TwoLoopsText(o: Options, xs: seq<Val>, ys: seq<Val>, first: seq<Statement>, second: seq<Statement>, ctx: Val)
    requires ctx != Undefined && ctx != Null
    ensures InterpStatements(o, Arrays(xs, ys), TwoLoops(first, second), [ctx])
         == Concat(Each(Plain(), BodyOf(o, Arrays(xs, ys), Some(Program(first)), [ctx]), xs),
                   Each(Plain(), BodyOf(o, Arrays(xs, ys), Some(Program(second)), [ctx]), ys))
  {
    var env, ss := Arrays(xs, ys), TwoLoops(first, second);
    assert ss[..1] == [Loop("xs", first)];
    OnlyStatement(o, env, Loop("xs", first), [ctx]);
    LoopText(o, xs, ys, "xs", first, ctx, 0);
    LoopText(o, xs, ys, "ys", second, ctx, LastOfStatements(o, ss[..1]));
  }

  // ---- a comment and nothing share a function ----

  lemma BodiesCompile(o: Options)
    ensures CompileProgram(o, Program([Comment])) == Compiled([], [], [], true)
    ensures CompileProgram(o, Program([])) == Compiled([], [], [], false)
  {
    OnlyCode(o, [Comment]);
    ChildrenOfPrograms(o, [Comment]);
    assert [Comment][..0] == [];
    assert EmitStatements(o, []) == Ops([]);
    assert EmitStatements(o, [Comment]).depths == [];
  }

  lemma LoopPrograms(first: seq<Statement>, second: seq<Statement>)
    ensures Programs(TwoLoops(first, second)) == [Program(first), Program(second)]
  {
    var ss := TwoLoops(first, second);
    assert ss[..1][..0] == [] && ss[..1] == [Loop("xs", first)];
    assert Programs(ss[..1]) == [Program(first)];
  }

  lemma LoopChildren(o: Options)
    ensures CompileProgram(o, Program(TwoLoops([Comment], []))).children
         == [Compiled([], [], [], true), Compiled([], [], [], false)]
  {
    BodiesCompile(o);
    LoopKids(o, Program([Comment]), Program([]));
  }

  lemma NotSharable(c: Compiled)
    requires c.children == [Compiled([], [], [], true), Compiled([], [], [], false)]
    ensures !Sharable(c)
  {
    var a, b := c.children[0], c.children[1];
    assert Below(c.children, a) && Below(c.children, b);
    assert Equals(a, b) && !Interchangeable(a, b);
  }

  // A loop over a comment and a loop over nothing have equal code and the same form, and
  // differ only in their bodies; they may not stand for each other either.
  lemma {:induction false} LoopsAreAPair(o: Options, p: Program, q: Program)
    requires p == Program([Loop("xs", [Comment])]) && q == Program([Loop("xs", [])])
    ensures var a, b := CompileProgram(o, p), CompileProgram(o, q);
      && Equals(a, b) && a.isSimple && b.isSimple && a.children != b.children && !Interchangeable(a, b)
      && CompileProgram(o, Program(TwoLoops(p.statements, q.statements))).children == [a, b]
  {
    BodiesCompile(o);
    OneLoop(o, [Comment]);
    OneLoop(o, []);
    SameLoop(o);
    OuterPair(CompileProgram(o, p), CompileProgram(o, q));
    LoopKids(o, p, q);
  }

  lemma OuterPair(a: Compiled, b: Compiled)
    requires a.opcodes == b.opcodes
    requires a.children == [Compiled([], [], [], true)] && b.children == [Compiled([], [], [], false)]
    ensures Equals(a, b) && a.children != b.children && !Interchangeable(a, b)
  {
    assert a.children[0].isSimple != b.children[0].isSimple;
  }

  lemma {:induction false} LoopKids(o: Options, p: Program, q: Program)
    ensures CompileProgram(o, Program(TwoLoops(p.statements, q.statements))).children
         == [CompileProgram(o, Program(p.statements)), CompileProgram(o, Program(q.statements))]
  {
    LoopPrograms(p.statements, q.statements);
    ChildrenOfPrograms(o, TwoLoops(p.statements, q.statements));
  }

  lemma OneLoop(o: Options, body: seq<Statement>)
    ensures CompileProgram(o, Program([Loop("xs", body)])).children == [CompileProgram(o, Program(body))]
    ensures Programs([Loop("xs", body)]) == [Program(body)]
  {
    assert [Loop("xs", body)][..0] == [];
    assert Programs([Loop("xs", body)]) == [Program(body)];
    ChildrenOfPrograms(o, [Loop("xs", body)]);
  }

  lemma SameLoop(o: Options)
    ensures CompileProgram(o, Program([Loop("xs", [])])).opcodes
         == CompileProgram(o, Program([Loop("xs", [Comment])])).opcodes
  {
    var ss, kids := [Loop("xs", [Comment])], [Program([])];
    BodiesCompile(o);
    OneLoop(o, [Comment]);
    assert ss[..0] == [] && kids[0..] == kids;
    assert Graft(ss, kids) == [Loop("xs", [])];
    ProgramGraft(o, Program(ss), kids);
  }

  // The second loop calls the function of the first.
  lemma {:induction false} CommentIsShared(o: Options)
    ensures var c := CompileProgram(o, Program(TwoLoops([Comment], [])));
      Link(c) == CompileProgram(o, Program(TwoLoops([Comment], [Comment]))) && !Sharable(c)
  {
    LoopChildren(o);
    NotSharable(CompileProgram(o, Program(TwoLoops([Comment], []))));
    LinkPair(Compiled([], [], [], true), Compiled([], [], [], false));
    CommentTwice(o);
  }

  lemma {:induction false} CommentTwice(o: Options)
    ensures var a := Compiled([], [], [], true);
      CompileProgram(o, Program(TwoLoops([Comment], [Comment])))
      == CompileProgram(o, Program(TwoLoops([Comment], []))).(children := [a, a])
  {
    var p, kids := Program(TwoLoops([Comment], [])), [Program([Comment]), Program([Comment])];
    BodiesCompile(o);
    LoopPrograms([Comment], []);
    GraftLoops(kids);
    ProgramGraft(o, p, kids);
    assert CompileAll(o, kids) == [Compiled([], [], [], true), Compiled([], [], [], true)];
  }

  lemma LinkPair(a: Compiled, b: Compiled)
    requires a.children == [] == b.children && a.opcodes == b.opcodes
    ensures LinkAll([a, b], []).codes == [a, a]
  {
    assert [a, b][..1] == [a] && [a][..0] == [];
    var t := [Empty, Made(a, a)];
    assert Match([], a, 0) == None;
    assert LinkAll([], []) == LinkedAll([], [], []);
    assert LinkAll([], [Empty]) == LinkedAll([], [], [Empty]);
    assert [] + [Empty] == [Empty];
    assert LinkOne(a, []) == Linked(1, a, t);
    assert LinkAll([a], []) == LinkedAll([1], [a], t);
    assert Match(t, b, 1) == Some(1);
    assert LinkOne(b, t) == Linked(1, a, t);
  }

  lemma GraftLoops(kids: seq<Program>)
    requires |kids| == 2
    ensures |Programs(TwoLoops([Comment], []))| == 2
    ensures Graft(TwoLoops([Comment], []), kids) == TwoLoops(kids[0].statements, kids[1].statements)
  {
    var ss := TwoLoops([Comment], []);
    LoopPrograms([Comment], []);
    assert ss[..1] == [Loop("xs", [Comment])] && ss[..1][..0] == [];
    assert Programs(ss[..1]) == [Program([Comment])];
    assert Graft(ss[..1], kids[..1]) == [Loop("xs", kids[0].statements)];
  }

  lemma {:induction false} UndefinedTwice(o: Options, xs: seq<Val>, ys: seq<Val>, ctx: Val)
    requires ctx != Undefined && ctx != Null
    ensures InterpStatements(o, Arrays(xs, ys), TwoLoops([Comment], [Comment]), [ctx])
         == Done(Times(|xs|, "undefined") + Times(|ys|, "undefined"))
  {
    TwoLoopsText(o, xs, ys, [Comment], [Comment], ctx);
    EachOverCommentPrints(o, Plain(), Arrays(xs, ys), [ctx], xs);
    EachOverCommentPrints(o, Plain(), Arrays(xs, ys), [ctx], ys);
  }

  lemma {:induction false} UndefinedOnce(o: Options, xs: seq<Val>, ys: seq<Val>, ctx: Val)
    requires ctx != Undefined && ctx != Null
    ensures InterpStatements(o, Arrays(xs, ys), TwoLoops([Comment], []), [ctx]) == Done(Times(|xs|, "undefined"))
  {
    TwoLoopsText(o, xs, ys, [Comment], [], ctx);
    EachOverCommentPrints(o, Plain(), Arrays(xs, ys), [ctx], xs);
    EachOverNothingPrintsNothing(o, Plain(), Arrays(xs, ys), [ctx], ys);
    assert Times(|xs|, "undefined") + "" == Times(|xs|, "undefined");
  }

  // `{{#each xs}}{{! c}}{{/each}}{{#each ys}}{{/each}}` writes "undefined" for every x, and
  // then, where the tree walk writes nothing, for every y as well.
  lemma {:induction false} CommentLeaksIntoLoop(o: Options, xs: seq<Val>, ys: seq<Val>, ctx: Val)
    requires ctx != Undefined && ctx != Null
    ensures var p := Program(TwoLoops([Comment], []));
      && RunTemplate(Link(CompileProgram(o, p)), Arrays(xs, ys), ctx)
         == Halted(Str(Times(|xs|, "undefined") + Times(|ys|, "undefined")))
      && Interp(o, Arrays(xs, ys), p, [ctx]) == Done(Str(Times(|xs|, "undefined")))
  {
    CommentIsShared(o);
    UndefinedTwice(o, xs, ys, ctx);
    UndefinedOnce(o, xs, ys, ctx);
    LongProgram(o, Arrays(xs, ys), TwoLoops([Comment], [Comment]), [ctx]);
    LongProgram(o, Arrays(xs, ys), TwoLoops([Comment], []), [ctx]);
    LoopsRun(o, xs, ys, ctx);
  }

  lemma {:induction false} LoopsRun(o: Options, xs: seq<Val>, ys: seq<Val>, ctx: Val)
    ensures var q := Program(TwoLoops([Comment], [Comment]));
      RunTemplate(CompileProgram(o, q), Arrays(xs, ys), ctx) == Lift(Interp(o, Arrays(xs, ys), q, [ctx]))
  {
    var q := Program(TwoLoops([Comment], [Comment]));
    ArraysAreOk(xs, ys);
    TemplateRun(o, Arrays(xs, ys), q, CompileProgram(o, q), ctx);
  }

  lemma {:induction false} LongProgram(o: Options, env: Env, ss: seq<Statement>, ctxs: seq<Val>)
    requires |ss| != 1
    ensures var text := InterpStatements(o, env, ss, ctxs);
      Interp(o, env, Program(ss), ctxs) == if text.Done? then Done(Str(text.value)) else Thrown
  {
  }

  // ---- above the root ----

  // {{../x}}
  const UP: Statement := Value(Mustache(Id(1, ["x"], false), [], None, true))

  lemma UpEmits(o: Options)
    ensures var e := EmitStatements(o, [UP]);
      |e.ops| >= 2 && e.ops[..2] == [GetContext(1), LookupOnContext("x")] && 1 in e.depths
  {
    assert [UP][..0] == [] && EmitStatements(o, []) == Ops([]);
    var e := EmitStatement(o, UP, 0);
    assert [] + e.ops == e.ops && [] + e.depths == e.depths;
    assert e.ops[0] == GetContext(1) && e.ops[1] == LookupOnContext("x") && e.depths[0] == 1;
    assert EmitStatements(o, [UP]).ops == e.ops && EmitStatements(o, [UP]).depths == e.depths;
  }

  lemma UpPrograms(ss: seq<Statement>)
    requires ss == [UP] + TwoLoops([Comment], [])
    ensures Programs(ss) == [Program([Comment]), Program([])]
  {
    assert ss[..2] == [UP, Loop("xs", [Comment])] && ss[..2][..1] == [UP] && [UP][..0] == [];
    assert Programs([UP]) == [];
    assert Programs(ss[..2]) == [Program([Comment])];
  }

  lemma {:induction false} StartsWith(o: Options, ss: seq<Statement>)
    requires |ss| > 0
    ensures EmitStatements(o, ss[..1]).ops <= EmitStatements(o, ss).ops
    ensures EmitStatements(o, ss[..1]).depths <= EmitStatements(o, ss).depths
  {
    if |ss| == 1 {
      assert ss[..1] == ss;
    } else {
      StartsWith(o, ss[..|ss| - 1]);
      assert ss[..|ss| - 1][..1] == ss[..1];
    }
  }

  lemma {:induction false} UpCode(o: Options, p: Program)
    requires |p.statements| > 0 && p.statements[0] == UP
    ensures var c := CompileProgram(o, p);
      |c.opcodes| >= 2 && c.opcodes[..2] == [GetContext(1), LookupOnContext("x")] && 1 in c.depths
  {
    assert p.statements[..1] == [UP];
    UpEmits(o);
    StartsWith(o, p.statements);
    ProgramDepths(o, p);
  }

  lemma {:induction false} UpChildren(o: Options, p: Program)
    requires Programs(p.statements) == [Program([Comment]), Program([])]
    ensures CompileProgram(o, p).children == [Compiled([], [], [], true), Compiled([], [], [], false)]
  {
    BodiesCompile(o);
    ChildrenOfPrograms(o, p.statements);
  }

  // Above the root there is nothing to look a name up in.
  lemma UpRaises(c: Compiled, env: Env, ctx: Val)
    requires |c.opcodes| >= 2 && c.opcodes[..2] == [GetContext(1), LookupOnContext("x")] && 1 in c.depths
    ensures RunTemplate(c, env, ctx) == Exception
  {
    var f := MakeFrame(ctx, c.depths, NoArguments(|c.depths|));
    RunOne(c, f, env, GetContext(1), START);
    RunSnoc(c, f, env, [GetContext(1)], LookupOnContext("x"), START);
    assert [GetContext(1)] + [LookupOnContext("x")] == c.opcodes[..2];
    assert f.bound[1] == Undefined;
    RunJoin(c, f, env, c.opcodes[..2], c.opcodes[2..], START);
    assert c.opcodes[..2] + c.opcodes[2..] == c.opcodes;
  }

  lemma {:induction false} BothRaise(o: Options, env: Env, p: Program, ctx: Val)
    requires EnvOk(env) && WellFormed(p) && |p.statements| > 0 && p.statements[0] == UP
    requires Programs(p.statements) == [Program([Comment]), Program([])]
    ensures !Sharable(CompileProgram(o, p))
    ensures RunTemplate(Link(CompileProgram(o, p)), env, ctx) == Lift(Interp(o, env, p, [ctx]))
  {
    var c := CompileProgram(o, p);
    UpCode(o, p);
    UpChildren(o, p);
    NotSharable(c);
    LinkedIsCompiled(o, c);
    EqualCodeIsSameProgram(o, c, Link(c));
    UpRaises(c, env, ctx);
    UpRaises(Link(c), env, ctx);
    TemplateRun(o, env, p, c, ctx);
  }

  // A path above the root can hide that nested programs are not sharable: behind `{{../x}}`
  // both the script and the tree walk raise, whatever follows.
  lemma {:induction false} HiddenAboveRoot(o: Options, env: Env, ctx: Val)
    requires EnvOk(env)
    ensures var p := Program([UP] + TwoLoops([Comment], []));
      && !Sharable(CompileProgram(o, p))
      && RunTemplate(Link(CompileProgram(o, p)), env, ctx) == Lift(Interp(o, env, p, [ctx]))
  {
    var p := Program([UP] + TwoLoops([Comment], []));
    UpPrograms(p.statements);
    BothRaise(o, env, p, ctx);
  }
}
