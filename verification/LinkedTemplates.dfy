// What the generated script renders.  A nested program may call the function of another
// one with the same code; the script renders the template's text exactly when all nested
// programs with the same code may stand for each other.
module LinkedTemplates {
  import opened Template
  import opened Opcodes
  import opened Emit
  import opened CompilerCorrect
  import opened ProgramSharing
  import opened SharedReturn
  import opened Grafts
  import opened Revealing
  import opened Linking
  import opened Rendering

  // ---- the script of a template is the code of another template ----

  // A program the compiled one comes from.
  ghost function Origin(o: Options, c: Compiled): (p: Program)
    requires IsCompiled(o, c)
    ensures WellFormed(p) && c == CompileProgram(o, p)
  {
    var p :| WellFormed(p) && c == CompileProgram(o, p);
    p
  }

  ghost function Origins(o: Options, cs: seq<Compiled>): (ps: seq<Program>)
    requires forall i :: 0 <= i < |cs| ==> IsCompiled(o, cs[i])
    ensures |ps| == |cs| && CompileAll(o, ps) == cs && forall p :: p in ps ==> WellFormed(p)
  {
    seq(|cs|, i requires 0 <= i < |cs| => Origin(o, cs[i]))
  }

  // Replacing the nested programs by others with equal code gives the code of a program
  // again.
  lemma {:induction false} ReplacedIsCompiled(o: Options, k: Compiled, codes: seq<Compiled>)
    requires IsCompiled(o, k) && |codes| == |k.children|
    requires forall i :: 0 <= i < |codes| ==> IsCompiled(o, codes[i]) && Equals(k.children[i], codes[i])
    ensures IsCompiled(o, k.(children := codes)) && Equals(k, k.(children := codes))
  {
    var p, kids := Origin(o, k), Origins(o, codes);
    ChildrenOfPrograms(o, p.statements);
    DepthsAreTold(o, k);
    var ps := Programs(p.statements);
    forall i | 0 <= i < |ps| ensures CompileProgram(o, ps[i]).depths == CompileProgram(o, kids[i]).depths {
      assert k.children[i] in k.children && CompileAll(o, kids)[i] == codes[i];
      EqualCodeIsSameProgram(o, k.children[i], codes[i]);
    }
    ProgramGraft(o, p, kids);
    GraftIsOk(p.statements, kids);
    assert WellFormed(Program(Graft(p.statements, kids)));
  }

  ghost predicate TableOk(o: Options, t: seq<Slot>) {
    forall i :: 0 <= i < |t| && t[i].Made? ==>
      IsCompiled(o, t[i].environment) && IsCompiled(o, t[i].code) && Equals(t[i].environment, t[i].code)
  }

  lemma {:induction false} OneIsCompiled(o: Options, k: Compiled, t: seq<Slot>)
    requires IsCompiled(o, k) && TableOk(o, t)
    ensures IsCompiled(o, LinkOne(k, t).code) && Equals(k, LinkOne(k, t).code) && TableOk(o, LinkOne(k, t).table)
    decreases k, 1
  {
    match Match(t, k, 0)
    case Some(i) =>
      EqualsSwaps(t[i].environment, k);
      EqualsChains(k, t[i].environment, t[i].code);
    case None =>
      DepthsAreTold(o, k);
      AllAreCompiled(o, k.children, t + [Empty]);
      ReplacedIsCompiled(o, k, LinkAll(k.children, t + [Empty]).codes);
  }

  lemma {:induction false} AllAreCompiled(o: Options, ks: seq<Compiled>, t: seq<Slot>)
    requires TableOk(o, t) && forall k :: k in ks ==> IsCompiled(o, k)
    ensures forall i :: 0 <= i < |ks| ==>
      IsCompiled(o, LinkAll(ks, t).codes[i]) && Equals(ks[i], LinkAll(ks, t).codes[i])
    ensures TableOk(o, LinkAll(ks, t).table)
    decreases ks, 0
  {
    if |ks| > 0 {
      AllAreCompiled(o, ks[..|ks| - 1], t);
      OneIsCompiled(o, ks[|ks| - 1], LinkAll(ks[..|ks| - 1], t).table);
    }
  }

  lemma LinkedIsCompiled(o: Options, c: Compiled)
    requires IsCompiled(o, c)
    ensures IsCompiled(o, Link(c)) && Equals(c, Link(c))
  {
    DepthsAreTold(o, c);
    AllAreCompiled(o, c.children, []);
    ReplacedIsCompiled(o, c, LinkAll(c.children, []).codes);
  }

  // Whatever is shared, the script renders as some template does that compiles to the same
  // code: it never faults.
  lemma ScriptIsTemplate(o: Options, c: Compiled) returns (q: Program)
    requires IsCompiled(o, c)
    ensures WellFormed(q) && Link(c) == CompileProgram(o, q) && Equals(c, CompileProgram(o, q))
    ensures forall env, ctx | EnvOk(env) :: RunTemplate(Link(c), env, ctx) == Lift(Interp(o, env, q, [ctx]))
  {
    LinkedIsCompiled(o, c);
    q := Origin(o, Link(c));
    forall env, ctx | EnvOk(env) ensures RunTemplate(Link(c), env, ctx) == Lift(Interp(o, env, q, [ctx])) {
      TemplateRun(o, env, q, Link(c), ctx);
    }
  }

  // ---- when it renders the template ----

  lemma CoverMeansSharable(c: Compiled, t: seq<Slot>)
    requires Different(t) && AllCovered(t, c.children)
    ensures Sharable(c)
  {
    forall x, y | Below(c.children, x) && Below(c.children, y) && Equals(x, y) ensures Interchangeable(x, y) {
      assert Covered(t, x) && Covered(t, y);
      var i :| 0 <= i < |t| && t[i].Made? && Swappable(x, t[i].environment);
      var j :| 0 <= j < |t| && t[j].Made? && Swappable(y, t[j].environment);
      var e, f := t[i].environment, t[j].environment;
      EqualsSwaps(x, e);
      EqualsChains(e, x, y);
      EqualsChains(e, y, f);
      EqualsSwaps(e, f);
      assert i == j;
      SwappableSwaps(y, e);
      SwappableChains(x, e, y);
    }
  }

  // Every nested program calls a function that may stand for it if and only if any two
  // nested programs with equal code may stand for each other.
  lemma LinkedIffSharable(o: Options, c: Compiled)
    requires IsCompiled(o, c)
    ensures Interchangeable(c, Link(c)) <==> Sharable(c)
  {
    LinkedIsCompiled(o, c);
    var r := LinkAll(c.children, []);
    if Sharable(c) {
      AllAreSound(c, c.children, []);
      assert forall i :: 0 <= i < |c.children| ==> Interchangeable(c.children[i], r.codes[i]);
    }
    if Interchangeable(c, Link(c)) {
      forall i | 0 <= i < |c.children| ensures Swappable(c.children[i], r.codes[i]) {
        assert Link(c).children[i] == r.codes[i];
      }
      AllCover(c.children, []);
      AllStayDifferent(c.children, []);
      CoverMeansSharable(c, r.table);
    }
  }

  // The script's program runs as the template's own program in every frame and environment
  // if and only if its nested programs are sharable.
  lemma LinkingIsSoundIff(o: Options, c: Compiled)
    requires IsCompiled(o, c)
    ensures (forall f, env | EnvOk(env) :: RunProgram(Link(c), f, env) == RunProgram(c, f, env)) <==> Sharable(c)
  {
    LinkedIsCompiled(o, c);
    LinkedIffSharable(o, c);
    SharingIsSoundIff(o, c, Link(c));
  }

  lemma CompiledFrom(o: Options, p: Program, c: Compiled)
    requires WellFormed(p) && c == CompileProgram(o, p)
    ensures IsCompiled(o, c)
  {
  }

  // Handlebars.compile(...)(ctx): the script renders the template.
  lemma ScriptRun(o: Options, env: Env, p: Program, c: Compiled, ctx: Val)
    requires EnvOk(env) && WellFormed(p) && c == CompileProgram(o, p) && Sharable(c)
    ensures RunTemplate(Link(c), env, ctx) == Lift(Interp(o, env, p, [ctx]))
  {
    CompiledFrom(o, p, c);
    LinkingIsSoundIff(o, c);
    TemplateRun(o, env, p, c, ctx);
    LinkedIsCompiled(o, c);
    EqualCodeIsSameProgram(o, c, Link(c));
    assert RunProgram(Link(c), MakeFrame(ctx, c.depths, NoArguments(|c.depths|)), env)
        == RunProgram(c, MakeFrame(ctx, c.depths, NoArguments(|c.depths|)), env);
  }

  // For templates whose paths stay below the root the condition is exact.
  lemma ScriptRunIff(o: Options, p: Program, c: Compiled)
    requires WellFormed(p) && c == CompileProgram(o, p) && c.depths == []
    ensures (forall env, ctx | EnvOk(env) :: RunTemplate(Link(c), env, ctx) == Lift(Interp(o, env, p, [ctx])))
       <==> Sharable(c)
  {
    if Sharable(c) {
      forall env, ctx | EnvOk(env) ensures RunTemplate(Link(c), env, ctx) == Lift(Interp(o, env, p, [ctx])) {
        ScriptRun(o, env, p, c, ctx);
      }
    } else {
      var env := ScriptDiffers(o, c);
      TemplateRun(o, env, p, c, Num(7));
      assert RunTemplate(Link(c), env, Num(7)) != Lift(Interp(o, env, p, [Num(7)]));
    }
  }

  lemma ScriptDiffers(o: Options, c: Compiled) returns (env: Env)
    requires IsCompiled(o, c) && c.depths == [] && !Sharable(c)
    ensures EnvOk(env)
    ensures RunTemplate(c, env, Num(7)).Halted? && RunTemplate(Link(c), env, Num(7)).Halted?
    ensures ToText(env, RunTemplate(c, env, Num(7)).value) != ToText(env, RunTemplate(Link(c), env, Num(7)).value)
  {
    LinkedIsCompiled(o, c);
    LinkedIffSharable(o, c);
    var n;
    env, n := TellsApart(o, c, Link(c));
    assert SevenFrame(c, n).bound == map[];
    assert MakeFrame(Num(7), c.depths, NoArguments(0)) == SevenFrame(c, n);
  }

  // The text of the rendered script is the text of the template's statements.
  lemma RendersItsText(o: Options, env: Env, p: Program, c: Compiled, ctx: Val)
    requires EnvOk(env) && WellFormed(p) && c == CompileProgram(o, p) && Sharable(c) && p.statements != [Comment]
    ensures RunText(env, RunTemplate(Link(c), env, ctx)) == Lift(InterpStatements(o, env, p.statements, [ctx]))
  {
    ScriptRun(o, env, p, c, ctx);
    ReturnsItsText(o, env, p, [ctx]);
  }

  // In every environment and context, if and only if the template is not exactly one
  // comment and its nested programs are sharable.
  lemma RendersItsTextIff(o: Options, p: Program, c: Compiled)
    requires WellFormed(p) && c == CompileProgram(o, p) && c.depths == []
    ensures (forall env, ctx | EnvOk(env) ::
               RunText(env, RunTemplate(Link(c), env, ctx)) == Lift(InterpStatements(o, env, p.statements, [ctx])))
       <==> p.statements != [Comment] && Sharable(c)
  {
    if p.statements == [Comment] {
      OneComment(o, p, c);
    } else if !Sharable(c) {
      var env := ScriptDiffers(o, c);
      TemplateRun(o, env, p, c, Num(7));
      ReturnsItsText(o, env, p, [Num(7)]);
      assert RunText(env, RunTemplate(Link(c), env, Num(7))) != Lift(InterpStatements(o, env, p.statements, [Num(7)]));
    } else {
      forall env, ctx | EnvOk(env)
        ensures RunText(env, RunTemplate(Link(c), env, ctx)) == Lift(InterpStatements(o, env, p.statements, [ctx])) {
        RendersItsText(o, env, p, c, ctx);
      }
    }
  }

  lemma OneComment(o: Options, p: Program, c: Compiled)
    requires WellFormed(p) && c == CompileProgram(o, p) && p.statements == [Comment]
    ensures EnvOk(Plain())
    ensures RunText(Plain(), RunTemplate(Link(c), Plain(), Null))
         != Lift(InterpStatements(o, Plain(), p.statements, [Null]))
  {
    OnlyCode(o, p.statements);
    assert Link(c) == c;
    TemplateRun(o, Plain(), p, c, Null);
    OnlyStatement(o, Plain(), Comment, [Null]);
  }
}
