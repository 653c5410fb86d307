// When one function may stand for two programs with the same code: not more than that.
// In one environment, what a program returns tells apart all programs with the same code
// that are not interchangeable.
module Revealing {
  import opened Wrappers
  import opened Template
  import opened Opcodes
  import opened Emit
  import opened DepthLists
  import opened Frames
  import opened CompilerCorrect
  import opened ProgramSharing
  import opened SharedReturn
  import opened Grafts

  // ---- the text of a value: the value can be read back from the end of any text ----

  function Ones(n: nat): (s: string)
    ensures |s| == n && forall i :: 0 <= i < n ==> s[i] == '1'
  {
    if n == 0 then "" else Ones(n - 1) + "1"
  }

  function Sized(s: string): string { s + "." + Ones(|s|) }

  function Code(v: Val): string
    decreases v, 1
  {
    Sized(Flat(v))
  }

  function Flat(v: Val): (s: string)
    ensures |s| > 0
    decreases v, 0
  {
    match v
    case Str(s) => "s" + s
    case Arr(items) => "a" + if |items| == 2 then Code(items[0]) + Code(items[1]) else ""
    case Undefined => "u"
    case _ => "7"
  }

  lemma SizedEnds(a: string, s: string, b: string, t: string)
    requires a + Sized(s) == b + Sized(t)
    ensures a == b && s == t
  {
    SameSize(a, s, b, t);
    SameSize(b, t, a, s);
    var x := a + Sized(s);
    assert |a| == |b|;
    assert a == x[..|a|] && b == x[..|a|];
    assert s == x[|a|..|a| + |s|] && t == x[|a|..|a| + |s|];
  }

  lemma SameSize(a: string, s: string, b: string, t: string)
    requires a + Sized(s) == b + Sized(t)
    ensures |s| >= |t|
  {
    if |s| < |t| {
      LastOnes(b, t, |s|);
      FirstDot(a, s);
    }
  }

  lemma FirstDot(a: string, s: string)
    ensures var x := a + Sized(s); x[|x| - 1 - |s|] == '.'
  {
  }

  lemma LastOnes(a: string, s: string, k: nat)
    requires k < |s|
    ensures var x := a + Sized(s); x[|x| - 1 - k] == '1'
  {
    var x := a + Sized(s);
    assert x == (a + s + ".") + Ones(|s|);
  }

  // The values a program returns in that environment.
  predicate Revealed(v: Val) {
    match v
    case Undefined => true
    case Num(n) => n == 7
    case Str(_) => true
    case Arr(items) => |items| == 2 && Revealed(items[0]) && Revealed(items[1])
    case _ => false
  }

  lemma {:induction false} CodeEnds(a: string, v: Val, b: string, w: Val)
    requires Revealed(v) && Revealed(w) && a + Code(v) == b + Code(w)
    ensures a == b && v == w
    decreases v
  {
    SizedEnds(a, Flat(v), b, Flat(w));
    assert Flat(v)[0] == Flat(w)[0];
    if v.Str? {
      assert v.s == Flat(v)[1..] && w.s == Flat(w)[1..];
    } else if v.Arr? {
      PairEnds(v, w);
    }
  }

  lemma {:induction false} PairEnds(v: Val, w: Val)
    requires Revealed(v) && Revealed(w) && v.Arr? && w.Arr? && Flat(v) == Flat(w)
    ensures v == w
    decreases v, 0
  {
    assert Flat(v)[1..] == Code(v.items[0]) + Code(v.items[1]);
    assert Flat(w)[1..] == Code(w.items[0]) + Code(w.items[1]);
    CodeEnds(Code(v.items[0]), v.items[1], Code(w.items[0]), w.items[1]);
    assert "" + Code(v.items[0]) == "" + Code(w.items[0]);
    CodeEnds("", v.items[0], "", w.items[0]);
    assert v.items == [v.items[0], v.items[1]] && w.items == [w.items[0], w.items[1]];
  }

  // ---- the environment ----

  // A helper that returns what its bodies return.
  function Reveal(self: Val, args: seq<Val>, hash: map<string, Val>, bodies: Bodies): Outcome<Val> {
    match bodies
    case NoBodies => Done(Num(7))
    case Bodies(fn, inverse) =>
      match (fn(Num(7)), inverse(Num(7)))
      case (Done(v), Done(w)) => Done(Arr([v, w]))
      case (_, _) => Thrown
  }

  function Showing(names: set<string>): (env: Env)
    ensures EnvOk(env)
  {
    Env(map name | name in names :: Reveal, Reveal, Reveal, (_, _) => Num(7), Code)
  }

  predicate AllSeven(ctxs: seq<Val>) { forall k :: 0 <= k < |ctxs| ==> ctxs[k] == Num(7) }

  function Sevens(n: nat): (ctxs: seq<Val>)
    ensures |ctxs| == n && AllSeven(ctxs)
  {
    seq(n, _ => Num(7))
  }

  // ---- what a program returns there ----

  function StatementShown(o: Options, s: Statement): Option<Val>
    decreases s, 1
  {
    match s
    case Content(text) => Some(Str(text))
    case Comment => None
    case Value(m) => Some(if m.escaped && !o.noEscape then Str(EscapeText(Code(Num(7)))) else Num(7))
    case Block(_, program, inverse) =>
      Some(if HasBody(s) then Arr([BodyShown(o, program), BodyShown(o, inverse)]) else Num(7))
  }

  function BodyShown(o: Options, q: Option<Program>): Val
    decreases q, 0
  {
    if q.None? then Str("") else ProgramShown(o, q.value)
  }

  function TextShown(v: Option<Val>): string {
    if v.None? then "" else if v.value.Str? then v.value.s else Code(v.value)
  }

  function TextsShown(o: Options, ss: seq<Statement>): string
    decreases ss, 2
  {
    if |ss| == 0 then "" else TextsShown(o, ss[..|ss| - 1]) + TextShown(StatementShown(o, ss[|ss| - 1]))
  }

  function ProgramShown(o: Options, p: Program): Val
    decreases p, 3
  {
    if |p.statements| != 1 then Str(TextsShown(o, p.statements))
    else if StatementShown(o, p.statements[0]).None? then Undefined
    else StatementShown(o, p.statements[0]).value
  }

  lemma {:induction false} ShownIsRevealed(o: Options, p: Program)
    ensures Revealed(ProgramShown(o, p))
    decreases p, 1
  {
    if |p.statements| == 1 { StatementIsRevealed(o, p.statements[0]); }
  }

  lemma {:induction false} StatementIsRevealed(o: Options, s: Statement)
    ensures StatementShown(o, s).Some? ==>
      Revealed(StatementShown(o, s).value) && !StatementShown(o, s).value.Undefined?
    decreases s, 0
  {
    if s.Block? {
      if s.program.Some? { ShownIsRevealed(o, s.program.value); }
      if s.inverse.Some? { ShownIsRevealed(o, s.inverse.value); }
    }
  }

  // ---- enough names and contexts ----

  predicate ParamBelow(p: Param, n: nat) { p.PathParam? ==> p.id.depth < n }

  predicate MustacheFits(m: Mustache, names: set<string>, n: nat) {
    && 0 < n && m.id.depth < n && Name(m) in names
    && (forall k :: 0 <= k < |m.params| ==> ParamBelow(m.params[k], n))
    && (m.hash.Some? ==> forall k :: 0 <= k < |m.hash.value| ==> ParamBelow(m.hash.value[k].1, n))
  }

  predicate StatementFits(s: Statement, names: set<string>, n: nat)
    decreases s, 0
  {
    match s
    case Content(_) => true
    case Comment => true
    case Value(m) => MustacheFits(m, names, n)
    case Block(head, program, inverse) =>
      && MustacheFits(head, names, n)
      && (program.Some? ==> Fits(program.value, names, n)) && (inverse.Some? ==> Fits(inverse.value, names, n))
  }

  predicate Fits(p: Program, names: set<string>, n: nat)
    decreases p, 1
  {
    forall s :: s in p.statements ==> StatementFits(s, names, n)
  }

  lemma {:induction false} FitsMore(p: Program, names: set<string>, n: nat, more: set<string>, k: nat)
    requires Fits(p, names, n) && names <= more && n <= k
    ensures Fits(p, more, k)
    decreases p, 1
  {
    forall s | s in p.statements ensures StatementFits(s, more, k) { StatementFitsMore(s, names, n, more, k); }
  }

  lemma {:induction false} StatementFitsMore(s: Statement, names: set<string>, n: nat, more: set<string>, k: nat)
    requires StatementFits(s, names, n) && names <= more && n <= k
    ensures StatementFits(s, more, k)
    decreases s, 0
  {
    match s
    case Content(_) =>
    case Comment =>
    case Value(m) => MustacheFitsMore(m, names, n, more, k);
    case Block(head, program, inverse) =>
      MustacheFitsMore(head, names, n, more, k);
      if program.Some? { FitsMore(program.value, names, n, more, k); }
      if inverse.Some? { FitsMore(inverse.value, names, n, more, k); }
  }

  lemma MustacheFitsMore(m: Mustache, names: set<string>, n: nat, more: set<string>, k: nat)
    requires MustacheFits(m, names, n) && names <= more && n <= k
    ensures MustacheFits(m, more, k)
  {
    forall j | 0 <= j < |m.params| ensures ParamBelow(m.params[j], k) { assert ParamBelow(m.params[j], n); }
    if m.hash.Some? {
      forall j | 0 <= j < |m.hash.value| ensures ParamBelow(m.hash.value[j].1, k) {
        assert ParamBelow(m.hash.value[j].1, n);
      }
    }
  }

  function Higher(a: nat, b: nat): nat { if a < b then b else a }

  function ParamsNeed(ps: seq<Param>): (n: nat)
    ensures forall k :: 0 <= k < |ps| ==> ParamBelow(ps[k], n)
  {
    if |ps| == 0 then 0
    else Higher(ParamsNeed(ps[1..]), if ps[0].PathParam? then ps[0].id.depth + 1 else 0)
  }

  function PairsNeed(pairs: seq<(string, Param)>): (n: nat)
    ensures forall k :: 0 <= k < |pairs| ==> ParamBelow(pairs[k].1, n)
  {
    if |pairs| == 0 then 0
    else var p := pairs[|pairs| - 1].1;
         Higher(PairsNeed(pairs[..|pairs| - 1]), if p.PathParam? then p.id.depth + 1 else 0)
  }

  function Needs(m: Mustache): (n: nat)
    ensures MustacheFits(m, {Name(m)}, n)
  {
    Higher(m.id.depth + 1,
      Higher(ParamsNeed(m.params), if m.hash.Some? then PairsNeed(m.hash.value) else 0))
  }

  lemma {:induction false} StatementNeeds(s: Statement) returns (names: set<string>, n: nat)
    ensures StatementFits(s, names, n)
    decreases s, 0
  {
    match s
    case Content(_) => names, n := {}, 0;
    case Comment => names, n := {}, 0;
    case Value(m) => names, n := {Name(m)}, Needs(m);
    case Block(head, program, inverse) =>
      names, n := {Name(head)}, Needs(head);
      if program.Some? {
        var more, k := ProgramNeeds(program.value);
        FitsMore(program.value, more, k, names + more, n + k);
        MustacheFitsMore(head, names, n, names + more, n + k);
        names, n := names + more, n + k;
      }
      if inverse.Some? {
        var more, k := ProgramNeeds(inverse.value);
        FitsMore(inverse.value, more, k, names + more, n + k);
        MustacheFitsMore(head, names, n, names + more, n + k);
        if program.Some? { FitsMore(program.value, names, n, names + more, n + k); }
        names, n := names + more, n + k;
      }
  }

  lemma {:induction false} StatementsNeed(ss: seq<Statement>) returns (names: set<string>, n: nat)
    ensures forall s :: s in ss ==> StatementFits(s, names, n)
    decreases ss, 1
  {
    if |ss| == 0 { return {}, 0; }
    var a, i := StatementsNeed(ss[..|ss| - 1]);
    var b, j := StatementNeeds(ss[|ss| - 1]);
    names, n := a + b, i + j;
    forall s | s in ss ensures StatementFits(s, names, n) {
      if s in ss[..|ss| - 1] {
        StatementFitsMore(s, a, i, names, n);
      } else {
        StatementFitsMore(s, b, j, names, n);
      }
    }
  }

  lemma {:induction false} ProgramNeeds(p: Program) returns (names: set<string>, n: nat)
    ensures Fits(p, names, n)
    decreases p, 2
  {
    names, n := StatementsNeed(p.statements);
  }

  // ---- it does return that ----

  lemma {:induction false} LookupsAreSeven(env: Env, names: seq<string>)
    requires env.property == Showing({}).property
    ensures LaterLookups(env, Num(7), names) == Num(7)
  {
    if |names| > 0 { LookupsAreSeven(env, names[..|names| - 1]); }
  }

  lemma PathIsSeven(all: set<string>, id: Id, ctxs: seq<Val>)
    requires AllSeven(ctxs) && id.depth < |ctxs|
    ensures PathValue(Showing(all), id, ctxs) == Done(Num(7))
  {
    LookupsAreSeven(Showing(all), if |id.parts| == 0 then [] else id.parts[1..]);
  }

  lemma {:induction false} ParamsAreDone(all: set<string>, ps: seq<Param>, ctxs: seq<Val>)
    requires AllSeven(ctxs) && forall k :: 0 <= k < |ps| ==> ParamBelow(ps[k], |ctxs|)
    ensures ParamValues(Showing(all), ps, ctxs).Done?
  {
    if |ps| > 0 {
      assert ParamBelow(ps[0], |ctxs|);
      if ps[0].PathParam? { PathIsSeven(all, ps[0].id, ctxs); }
      forall k | 0 <= k < |ps[1..]| ensures ParamBelow(ps[1..][k], |ctxs|) { assert ParamBelow(ps[k + 1], |ctxs|); }
      ParamsAreDone(all, ps[1..], ctxs);
    }
  }

  lemma {:induction false} PairsAreDone(all: set<string>, pairs: seq<(string, Param)>, ctxs: seq<Val>)
    requires AllSeven(ctxs) && forall k :: 0 <= k < |pairs| ==> ParamBelow(pairs[k].1, |ctxs|)
    ensures HashValues(Showing(all), pairs, ctxs).Done?
  {
    if |pairs| > 0 {
      var n := |pairs| - 1;
      assert ParamBelow(pairs[n].1, |ctxs|);
      if pairs[n].1.PathParam? { PathIsSeven(all, pairs[n].1.id, ctxs); }
      PairsAreDone(all, pairs[..n], ctxs);
    }
  }

  // Every call is answered by Reveal.
  lemma HeadShown(o: Options, all: set<string>, s: Statement, m: Mustache, ctxs: seq<Val>, last: nat)
    requires AllSeven(ctxs) && MustacheFits(m, all, |ctxs|)
    ensures MustacheValue(o, Showing(all), s, m, ctxs, last)
         == if Classify(o, m) == SimpleKind then Done(Num(7))
            else Reveal(Num(7), [], map[], BodiesOf(o, Showing(all), s, ctxs))
  {
    match Classify(o, m)
    case SimpleKind => PathIsSeven(all, m.id, ctxs);
    case AmbiguousKind =>
    case HelperKind =>
      ParamsAreDone(all, m.params, ctxs);
      if m.hash.Some? { PairsAreDone(all, m.hash.value, ctxs); }
  }

  lemma {:induction false} BodyRevealed(o: Options, all: set<string>, q: Option<Program>, ctxs: seq<Val>)
    requires AllSeven(ctxs) && (q.Some? ==> Fits(q.value, all, |ctxs|))
    ensures BodyOf(o, Showing(all), q, ctxs)(Num(7)) == Done(BodyShown(o, q))
    decreases q, 3
  {
    if q.Some? {
      FitsMore(q.value, all, |ctxs|, all, |ctxs| + 1);
      ProgramRevealed(o, all, q.value, [Num(7)] + ctxs);
    }
  }

  lemma {:induction false} StatementRevealed(o: Options, all: set<string>, s: Statement, ctxs: seq<Val>, last: nat)
    requires AllSeven(ctxs) && StatementFits(s, all, |ctxs|)
    ensures StatementValue(o, Showing(all), s, ctxs, last) == Done(StatementShown(o, s))
    decreases s, 0
  {
    match s
    case Content(_) =>
    case Comment =>
    case Value(m) => HeadShown(o, all, s, m, ctxs, last);
    case Block(head, program, inverse) =>
      HeadShown(o, all, s, head, ctxs, last);
      BodyRevealed(o, all, program, ctxs);
      BodyRevealed(o, all, inverse, ctxs);
  }

  lemma {:induction false} StatementsRevealed(o: Options, all: set<string>, ss: seq<Statement>, ctxs: seq<Val>)
    requires AllSeven(ctxs) && forall s :: s in ss ==> StatementFits(s, all, |ctxs|)
    ensures InterpStatements(o, Showing(all), ss, ctxs) == Done(TextsShown(o, ss))
    decreases ss, 1
  {
    if |ss| > 0 {
      var n := |ss| - 1;
      StatementsRevealed(o, all, ss[..n], ctxs);
      StatementRevealed(o, all, ss[n], ctxs, LastOfStatements(o, ss[..n]));
      StatementIsRevealed(o, ss[n]);
    }
  }

  lemma {:induction false} ProgramRevealed(o: Options, all: set<string>, p: Program, ctxs: seq<Val>)
    requires AllSeven(ctxs) && Fits(p, all, |ctxs|)
    ensures Interp(o, Showing(all), p, ctxs) == Done(ProgramShown(o, p))
    decreases p, 2
  {
    if |p.statements| == 1 {
      StatementRevealed(o, all, p.statements[0], ctxs, 0);
    } else {
      StatementsRevealed(o, all, p.statements, ctxs);
    }
  }

  function SevenFrame(c: Compiled, n: nat): Frame {
    MakeFrame(Num(7), c.depths, Outer(c.depths, Sevens(n)))
  }

  // The compiled program run in it.
  lemma RunShown(o: Options, all: set<string>, p: Program, n: nat)
    requires WellFormed(p) && Fits(p, all, n + 1)
    ensures RunProgram(CompileProgram(o, p), SevenFrame(CompileProgram(o, p), n), Showing(all))
         == Halted(ProgramShown(o, p))
  {
    var c := CompileProgram(o, p);
    ProgramDepths(o, p);
    EnteredFrame(c.depths, Num(7), Sevens(n));
    ProgramRun(o, Showing(all), p, SevenFrame(c, n), [Num(7)] + Sevens(n));
    ProgramRevealed(o, all, p, [Num(7)] + Sevens(n));
  }

  // Names and contexts for two programs.
  lemma BothFit(p: Program, q: Program) returns (names: set<string>, n: nat)
    ensures Fits(p, names, n + 1) && Fits(q, names, n + 1)
  {
    var a, i := ProgramNeeds(p);
    var b, j := ProgramNeeds(q);
    names, n := a + b, i + j;
    FitsMore(p, a, i, names, n + 1);
    FitsMore(q, b, j, names, n + 1);
  }

  lemma SameCodeSameShown(o: Options, p: Program, q: Program)
    requires WellFormed(p) && WellFormed(q) && CompileProgram(o, p) == CompileProgram(o, q)
    ensures ProgramShown(o, p) == ProgramShown(o, q)
  {
    var names, n := BothFit(p, q);
    RunShown(o, names, p, n);
    RunShown(o, names, q, n);
  }

  // ---- it tells them apart ----

  lemma SameRest(a: string, b: string, text: string)
    requires a + text == b + text
    ensures a == b
  {
    assert a == (a + text)[..|a|] && b == (b + text)[..|a|];
  }

  // From the end of two texts: one statement with its programs and with others in place.
  lemma StatementSeparates(o: Options, s: Statement, kids: seq<Program>, a: string, b: string)
    requires |kids| == |ProgramsOf(s)|
    requires a + TextShown(StatementShown(o, s)) == b + TextShown(StatementShown(o, GraftStatement(s, kids)))
    ensures a == b
    ensures forall i :: 0 <= i < |kids| ==> ProgramShown(o, ProgramsOf(s)[i]) == ProgramShown(o, kids[i])
  {
    var t := GraftStatement(s, kids);
    if HasBody(s) {
      var v, w := StatementShown(o, s).value, StatementShown(o, t).value;
      StatementIsRevealed(o, s);
      StatementIsRevealed(o, t);
      CodeEnds(a, v, b, w);
      assert v.items[0] == w.items[0] && v.items[1] == w.items[1];
    } else {
      SameRest(a, b, TextShown(StatementShown(o, s)));
    }
  }

  lemma {:induction false} StatementsSeparate(o: Options, ss: seq<Statement>, kids: seq<Program>)
    requires |kids| == |Programs(ss)| && TextsShown(o, ss) == TextsShown(o, Graft(ss, kids))
    ensures forall i :: 0 <= i < |kids| ==> ProgramShown(o, Programs(ss)[i]) == ProgramShown(o, kids[i])
  {
    if |ss| > 0 {
      var init, s := ss[..|ss| - 1], ss[|ss| - 1];
      var n := |Programs(init)|;
      var grafted := Graft(init, kids[..n]);
      assert Graft(ss, kids)[..|ss| - 1] == grafted;
      StatementSeparates(o, s, kids[n..], TextsShown(o, init), TextsShown(o, grafted));
      StatementsSeparate(o, init, kids[..n]);
      SameShownJoin(o, Programs(init), ProgramsOf(s), kids);
    }
  }

  lemma {:induction false} SameShownJoin(o: Options, a: seq<Program>, b: seq<Program>, kids: seq<Program>)
    requires |kids| == |a| + |b|
    requires forall i :: 0 <= i < |a| ==> ProgramShown(o, a[i]) == ProgramShown(o, kids[..|a|][i])
    requires forall i :: 0 <= i < |b| ==> ProgramShown(o, b[i]) == ProgramShown(o, kids[|a|..][i])
    ensures forall i :: 0 <= i < |kids| ==> ProgramShown(o, (a + b)[i]) == ProgramShown(o, kids[i])
  {
    forall i | 0 <= i < |kids| ensures ProgramShown(o, (a + b)[i]) == ProgramShown(o, kids[i]) {
      if i < |a| {
        assert (a + b)[i] == a[i] && kids[i] == kids[..|a|][i];
      } else {
        assert (a + b)[i] == b[i - |a|] && kids[i] == kids[|a|..][i - |a|];
      }
    }
  }

  // What a program turns into when it is added to a string.
  function ShownText(v: Val): string {
    match v
    case Undefined => "undefined"
    case Str(s) => s
    case _ => Code(v)
  }

  lemma OneText(o: Options, s: Statement)
    ensures TextsShown(o, [s]) == TextShown(StatementShown(o, s))
  {
    assert [s][..0] == [];
    assert TextsShown(o, []) == "";
    assert "" + TextShown(StatementShown(o, s)) == TextShown(StatementShown(o, s));
  }

  // Whatever replaces its nested programs, a program with the same text has the same text
  // of statements.
  lemma SameTexts(o: Options, p: Program, kids: seq<Program>)
    requires |kids| == |Programs(p.statements)|
    requires ShownText(ProgramShown(o, p)) == ShownText(ProgramShown(o, Program(Graft(p.statements, kids))))
    ensures TextsShown(o, p.statements) == TextsShown(o, Graft(p.statements, kids))
  {
    if |p.statements| == 1 {
      var s := p.statements[0];
      assert p.statements == [s] && p.statements[..0] == [];
      assert kids[0..] == kids;
      var t := GraftStatement(s, kids);
      assert Graft(p.statements, kids) == [t];
      OneText(o, s);
      OneText(o, t);
      StatementIsRevealed(o, s);
      StatementIsRevealed(o, t);
    }
  }

  // A program of one statement returns a string only if its code ends in text.
  lemma SimpleText(o: Options, p: Program)
    requires WellFormed(p) && |p.statements| == 1 && ProgramShown(o, p).Str?
    ensures EndsInText(CompileProgram(o, p)) && CompileProgram(o, p).children == []
  {
    var c, s := CompileProgram(o, p), p.statements[0];
    var quiet, last := OneAppend(o, p);
    assert c.opcodes[|c.opcodes| - 1] == last;
    assert p.statements == [s] && p.statements[..0] == [];
    assert Programs([]) == [];
    ChildrenOfPrograms(o, p.statements);
    OnlyCode(o, p.statements);
  }

  // The nested programs of two programs of the same form whose results read the same.
  lemma KidsSeparate(o: Options, p: Program, q: Program, a: Compiled, b: Compiled)
    requires WellFormed(p) && WellFormed(q) && a == CompileProgram(o, p) && b == CompileProgram(o, q)
    requires Equals(a, b) && a.isSimple == b.isSimple
    requires ShownText(ProgramShown(o, p)) == ShownText(ProgramShown(o, q))
    ensures var ps, qs := Programs(p.statements), Programs(q.statements);
      |ps| == |qs| && forall i :: 0 <= i < |ps| ==> ProgramShown(o, ps[i]) == ProgramShown(o, qs[i])
  {
    SameKidDepths(o, p, q, a, b);
    var r := Program(Graft(p.statements, Programs(q.statements)));
    GraftIsOther(o, p, q, a, b, r);
    SameCodeSameShown(o, r, q);
    SameTexts(o, p, Programs(q.statements));
    StatementsSeparate(o, p.statements, Programs(q.statements));
  }

  lemma {:induction false} GraftIsOther(o: Options, p: Program, q: Program, a: Compiled, b: Compiled, r: Program)
    requires WellFormed(p) && WellFormed(q) && a == CompileProgram(o, p) && b == CompileProgram(o, q)
    requires Equals(a, b) && a.isSimple == b.isSimple
    requires SameDepths(o, Programs(p.statements), Programs(q.statements))
    requires r == Program(Graft(p.statements, Programs(q.statements)))
    ensures WellFormed(r) && CompileProgram(o, r) == b
  {
    var qs := Programs(q.statements);
    ProgramsAreOk(q.statements);
    GraftIsOk(p.statements, qs);
    ProgramGraft(o, p, qs);
    ChildrenOfPrograms(o, q.statements);
    EqualCodeIsSameProgram(o, a, b);
  }

  lemma SameKidDepths(o: Options, p: Program, q: Program, a: Compiled, b: Compiled)
    requires WellFormed(p) && WellFormed(q) && a == CompileProgram(o, p) && b == CompileProgram(o, q)
    requires Equals(a, b)
    ensures SameDepths(o, Programs(p.statements), Programs(q.statements))
  {
    var ps, qs := Programs(p.statements), Programs(q.statements);
    ChildrenOfPrograms(o, p.statements);
    ChildrenOfPrograms(o, q.statements);
    ProgramsAreOk(p.statements);
    ProgramsAreOk(q.statements);
    forall i | 0 <= i < |ps| ensures CompileProgram(o, ps[i]).depths == CompileProgram(o, qs[i]).depths {
      assert ps[i] in ps && qs[i] in qs;
      EqualCodeIsSameProgram(o, a.children[i], b.children[i]);
    }
  }

  // Programs with the same code that return the same there are interchangeable; if they
  // have the same form it is enough that their texts are the same.
  lemma {:induction false} Separates(o: Options, p: Program, q: Program, a: Compiled, b: Compiled)
    requires WellFormed(p) && WellFormed(q) && a == CompileProgram(o, p) && b == CompileProgram(o, q)
    requires Equals(a, b)
    requires ProgramShown(o, p) == ProgramShown(o, q)
          || (a.isSimple == b.isSimple && ShownText(ProgramShown(o, p)) == ShownText(ProgramShown(o, q)))
    ensures Interchangeable(a, b)
    decreases a
  {
    if a.isSimple && !b.isSimple {
      SimpleText(o, p);
    } else if !a.isSimple && b.isSimple {
      SimpleText(o, q);
    } else {
      var ps, qs := Programs(p.statements), Programs(q.statements);
      KidsSeparate(o, p, q, a, b);
      ChildrenOfPrograms(o, p.statements);
      ChildrenOfPrograms(o, q.statements);
      ProgramsAreOk(p.statements);
      ProgramsAreOk(q.statements);
      forall i | 0 <= i < |a.children| ensures Interchangeable(a.children[i], b.children[i]) {
        assert ps[i] in ps && qs[i] in qs;
        Separates(o, ps[i], qs[i], a.children[i], b.children[i]);
      }
    }
  }

  // A frame and an environment in which programs with the same code that are not
  // interchangeable return different values, and different texts if they have the same
  // form.
  lemma TellsApart(o: Options, a: Compiled, b: Compiled) returns (env: Env, n: nat)
    requires IsCompiled(o, a) && IsCompiled(o, b) && Equals(a, b)
    ensures EnvOk(env)
    ensures var r, t := RunProgram(a, SevenFrame(a, n), env), RunProgram(b, SevenFrame(a, n), env);
      r.Halted? && t.Halted? && (!Interchangeable(a, b) ==>
        r != t && (a.isSimple == b.isSimple ==> ToText(env, r.value) != ToText(env, t.value)))
  {
    var p :| WellFormed(p) && a == CompileProgram(o, p);
    var q :| WellFormed(q) && b == CompileProgram(o, q);
    EqualCodeIsSameProgram(o, a, b);
    var names;
    names, n := BothFit(p, q);
    env := Showing(names);
    RunShown(o, names, p, n);
    RunShown(o, names, q, n);
    ShownIsRevealed(o, p);
    ShownIsRevealed(o, q);
    if !Interchangeable(a, b) {
      if ProgramShown(o, p) == ProgramShown(o, q)
         || (a.isSimple == b.isSimple && ShownText(ProgramShown(o, p)) == ShownText(ProgramShown(o, q))) {
        Separates(o, p, q, a, b);
      }
    }
  }

  // The function of one program may be called for another one with the same code, in every
  // frame and every environment, if and only if they are interchangeable.
  lemma SharingIsSoundIff(o: Options, a: Compiled, b: Compiled)
    requires IsCompiled(o, a) && IsCompiled(o, b) && Equals(a, b)
    ensures (forall f, env | EnvOk(env) :: RunProgram(a, f, env) == RunProgram(b, f, env)) <==> Interchangeable(a, b)
  {
    if Interchangeable(a, b) {
      forall f, env | EnvOk(env) ensures RunProgram(a, f, env) == RunProgram(b, f, env) {
        InterchangeableRunAlike(o, a, b, env);
      }
    } else {
      var env, n := TellsApart(o, a, b);
    }
  }
}
