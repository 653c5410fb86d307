// Handlebars.Compiler as it is written: an object that pushes onto its opcode, depth and
// child lists in loops, and creates another compiler for each nested program.  Every
// method adds exactly what the functions of Emit say.
module CompilerState {
  import opened Wrappers
  import opened Template
  import opened Opcodes
  import opened Emit

  // The helpers every compiler knows.
  const BUILT_IN: map<string, bool> :=
    map["helperMissing" := true, "blockHelperMissing" := true, "each" := true, "if" := true,
        "unless" := true, "with" := true, "log" := true]

  // compile: the user's settings override the built-in ones.
  function Merged(user: map<string, bool>): map<string, bool> { BUILT_IN + user }

  function Effective(known: map<string, bool>, knownHelpersOnly: bool, noEscape: bool): Options {
    Options((set name | name in known && known[name]), knownHelpersOnly, noEscape)
  }

  // The compiler takes a template unless it calls a helper it is told not to count on.
  predicate Accepted(o: Options, p: Program) { forall s :: s in p.statements ==> StatementAccepted(o, s) }

  predicate StatementAccepted(o: Options, s: Statement) {
    match s
    case Content(_) => true
    case Comment => true
    case Value(m) => !Refused(o, m)
    case Block(head, program, inverse) =>
      && !Refused(o, head)
      && (program.Some? ==> Accepted(o, program.value)) && (inverse.Some? ==> Accepted(o, inverse.value))
  }

  // The seven built-in helpers are known unless the user says otherwise, and whatever the
  // user lists is what the user says.
  lemma MergedIs(user: map<string, bool>, name: string)
    ensures name in user ==> name in Merged(user) && Merged(user)[name] == user[name]
    ensures name !in user ==> (name in Merged(user) <==>
      name in ["helperMissing", "blockHelperMissing", "each", "if", "unless", "with", "log"])
    ensures name !in user && name in Merged(user) ==> Merged(user)[name]
  {
  }

  // A nested program is compiled with the options its parent left behind, and knows the
  // same helpers.
  lemma MergedTwice(user: map<string, bool>)
    ensures Merged(Merged(user)) == Merged(user)
  {
  }

  lemma OneMoreStatement(state: Emission, o: Options, ss: seq<Statement>, i: nat)
    requires i < |ss|
    ensures
      var before := EmitStatements(o, ss[..i]);
      Grown(Grown(state, before), EmitStatement(o, ss[i], |before.children|))
      == Grown(state, EmitStatements(o, ss[..i + 1]))
  {
    var before := EmitStatements(o, ss[..i]);
    assert ss[..i + 1][..i] == ss[..i];
    GrownTwice(state, before, EmitStatement(o, ss[i], |before.children|));
  }

  // Four parts in a row, however they are grouped.
  lemma JoinShape(a: Emission, b: Emission, c: Emission, d: Emission)
    ensures Join(Join(a, Join(b, c)), d) == Join(a, Join(b, Join(c, d)))
  {
    assert (a.ops + (b.ops + c.ops)) + d.ops == a.ops + (b.ops + (c.ops + d.ops));
    assert (a.depths + (b.depths + c.depths)) + d.depths == a.depths + (b.depths + (c.depths + d.depths));
    assert (a.children + (b.children + c.children)) + d.children
        == a.children + (b.children + (c.children + d.children));
  }

  // A compiler's lists after a node has added its part.
  function Grown(state: Emission, e: Emission): Emission {
    Emission(state.ops + e.ops, AddDepths(state.depths, e.depths), state.children + e.children)
  }

  lemma {:induction false} AddDepthsTwice(list: seq<nat>, a: seq<nat>, b: seq<nat>)
    ensures AddDepths(AddDepths(list, a), b) == AddDepths(list, a + b)
    decreases |b|
  {
    if |b| == 0 {
      assert a + b == a;
    } else {
      AddDepthsTwice(list, a, b[..|b| - 1]);
      assert (a + b)[..|a + b| - 1] == a + b[..|b| - 1];
    }
  }

  lemma OneMoreParentDepth(list: seq<nat>, ds: seq<nat>, i: nat)
    requires i < |ds|
    ensures AddDepths(list, ParentDepths(ds[..i + 1]))
         == (if ds[i] < 2 then AddDepths(list, ParentDepths(ds[..i]))
             else AddDepth(AddDepths(list, ParentDepths(ds[..i])), ds[i] - 1))
  {
    assert ds[..i + 1][..i] == ds[..i];
    var before := ParentDepths(ds[..i]);
    if ds[i] < 2 {
      assert before + [] == before;
    } else {
      assert (before + [ds[i] - 1])[..|before|] == before;
    }
  }

  lemma GrownTwice(state: Emission, a: Emission, b: Emission)
    ensures Grown(Grown(state, a), b) == Grown(state, Join(a, b))
  {
    AddDepthsTwice(state.depths, a.depths, b.depths);
    assert (state.ops + a.ops) + b.ops == state.ops + (a.ops + b.ops);
    assert (state.children + a.children) + b.children == state.children + (a.children + b.children);
  }

  lemma GrownByNothing(state: Emission)
    ensures Grown(state, Ops([])) == state
  {
    assert state.ops + [] == state.ops && state.children + [] == state.children;
  }

  // A nested program: one more child, and its depths.
  lemma NestedGrown(state: Emission, o: Options, p: Program, result: Compiled)
    requires result == CompileProgram(o, p)
    ensures Grown(state, EmitChild(o, Some(p)))
         == Emission(state.ops, AddDepths(state.depths, ParentDepths(result.depths)), state.children + [result])
  {
    assert state.ops + [] == state.ops;
  }

  lemma GrownFromNothing(e: Emission)
    ensures Grown(Ops([]), e) == Emission(e.ops, AddDepths([], e.depths), e.children)
  {
    assert [] + e.ops == e.ops && [] + e.children == e.children;
  }

  // One addDepth, then nothing else.
  lemma GrownByDepth(state: Emission, d: nat)
    ensures Grown(state, Emission([], [d], [])) == state.(depths := AddDepth(state.depths, d))
  {
    assert state.ops + [] == state.ops && state.children + [] == state.children;
    assert [d][..0] == [];
    assert AddDepths(state.depths, []) == state.depths;
  }

  // What ID has emitted when it is about to look up the i-th part of the path.
  function IdPart(id: Id, i: nat): Emission
    requires 1 <= i && (|id.parts| > 0 ==> i <= |id.parts|) && (|id.parts| == 0 ==> i == 1)
  {
    Emission([GetContext(id.depth)]
             + (if |id.parts| == 0 || id.parts[0] == "" then [PushContext] else [LookupOnContext(id.parts[0])])
             + Lookups(if |id.parts| == 0 then [] else id.parts[1..i]),
             [id.depth], [])
  }

  lemma IdStarts(state: Emission, id: Id)
    ensures Grown(state, IdPart(id, 1)) == Emission(
              state.ops + [GetContext(id.depth)]
                + [if |id.parts| == 0 || id.parts[0] == "" then PushContext else LookupOnContext(id.parts[0])],
              AddDepth(state.depths, id.depth), state.children)
  {
    GrownByDepth(state, id.depth);
    var ops := [GetContext(id.depth)]
             + (if |id.parts| == 0 || id.parts[0] == "" then [PushContext] else [LookupOnContext(id.parts[0])]);
    assert ops + [] == ops;
    assert state.children + [] == state.children;
  }

  lemma IdGoesOn(state: Emission, id: Id, i: nat)
    requires 1 <= i < |id.parts|
    ensures Grown(Grown(state, IdPart(id, i)), Ops([Lookup(id.parts[i])])) == Grown(state, IdPart(id, i + 1))
  {
    GrownTwice(state, IdPart(id, i), Ops([Lookup(id.parts[i])]));
    assert id.parts[1..i + 1][..i - 1] == id.parts[1..i];
    assert Join(IdPart(id, i), Ops([Lookup(id.parts[i])])) == IdPart(id, i + 1);
  }

  lemma GrownByOps(state: Emission, ops: seq<Op>)
    ensures Grown(state, Ops(ops)) == state.(ops := state.ops + ops)
  {
    assert state.children + [] == state.children;
  }
}

module TemplateCompiler {
  import opened Wrappers
  import opened Template
  import opened Opcodes
  import opened Emit
  import opened DepthLists
  import opened CompilerState

  // new IdNode(parts)
  method NewId(parts: seq<string>) returns (id: Option<Id>)
    ensures id == MakeId(parts)
  {
    var dig: seq<string>, depth: nat, scoped := [], 0, false;
    var i := 0;
    while i < |parts|
      invariant 0 <= i <= |parts|
      invariant Walk(parts[..i]) == Some((depth, dig, scoped))
    {
      var part := parts[i];
      assert parts[..i + 1][..i] == parts[..i];
      if part == ".." || part == "." || part == "this" {
        if |dig| > 0 {
          InvalidStays(parts, i + 1);
          return None;
        } else if part == ".." {
          depth := depth + 1;
        } else {
          scoped := true;
        }
      } else {
        dig := dig + [part];
      }
      i := i + 1;
    }
    assert parts[..i] == parts;
    return Some(Id(depth, dig, |parts| == 1 && !scoped && depth == 0));
  }

  lemma {:induction false} InvalidStays(parts: seq<string>, n: nat)
    requires n <= |parts| && Walk(parts[..n]).None?
    ensures Walk(parts).None?
    decreases |parts| - n
  {
    if n == |parts| {
      assert parts[..n] == parts;
    } else {
      assert parts[..n + 1][..n] == parts[..n];
      InvalidStays(parts, n + 1);
    }
  }

  class Compiler {
    var opcodes: seq<Op>
    var list: seq<nat>            // depths.list
    var marks: set<nat>           // depths[d] === true
    var children: seq<Compiled>
    var guid: nat
    var known: map<string, bool>  // options.knownHelpers
    const knownHelpersOnly: bool
    const noEscape: bool
    var isSimple: bool

    ghost predicate Valid()
      reads this
    {
      guid == |children| && forall d :: d in marks <==> d in list
    }

    ghost function State(): Emission
      reads this
    {
      Emission(opcodes, list, children)
    }

    ghost function O(): Options
      reads this
    {
      Effective(known, knownHelpersOnly, noEscape)
    }

    constructor (known: map<string, bool>, knownHelpersOnly: bool, noEscape: bool)
      ensures Valid() && State() == Ops([]) && this.known == Merged(known)
      ensures this.knownHelpersOnly == knownHelpersOnly && this.noEscape == noEscape
    {
      opcodes, list, marks, children, guid, isSimple := [], [], {}, [], 0, false;
      this.known, this.knownHelpersOnly, this.noEscape := Merged(known), knownHelpersOnly, noEscape;
    }

    method Opcode(op: Op)
      requires Valid()
      modifies this`opcodes
      ensures Valid() && State() == Grown(old(State()), Ops([op]))
    {
      opcodes := opcodes + [op];
      GrownByOps(old(State()), [op]);
    }

    method AddDepth(d: nat)
      requires Valid()
      modifies this`list, this`marks
      ensures Valid() && State() == Grown(old(State()), Emission([], [d], []))
    {
      GrownByDepth(old(State()), d);
      if d == 0 { return; }
      if d !in marks {
        marks := marks + {d};
        list := list + [d];
      }
    }

    method ID(id: Id)
      requires Valid()
      modifies this`opcodes, this`list, this`marks
      ensures Valid() && State() == Grown(old(State()), EmitId(id))
    {
      ghost var was := State();
      AddDepth(id.depth);
      GrownByDepth(was, id.depth);
      Opcode(GetContext(id.depth));
      GrownByOps(was.(depths := Emit.AddDepth(was.depths, id.depth)), [GetContext(id.depth)]);
      ghost var begun := State();
      if |id.parts| == 0 || id.parts[0] == "" {
        Opcode(PushContext);
        GrownByOps(begun, [PushContext]);
      } else {
        Opcode(LookupOnContext(id.parts[0]));
        GrownByOps(begun, [LookupOnContext(id.parts[0])]);
      }
      IdStarts(was, id);
      var i := 1;
      while i < |id.parts|
        invariant 1 <= i && (|id.parts| > 0 ==> i <= |id.parts|) && (|id.parts| == 0 ==> i == 1)
        invariant Valid() && State() == Grown(was, IdPart(id, i))
      {
        Opcode(Lookup(id.parts[i]));
        IdGoesOn(was, id, i);
        i := i + 1;
      }
      if |id.parts| > 0 { assert id.parts[1..i] == id.parts[1..]; }
    }

    method Param(p: Param)
      requires Valid()
      modifies this`opcodes, this`list, this`marks
      ensures Valid() && State() == Grown(old(State()), EmitParam(p))
    {
      match p
      case PathParam(id) => ID(id);
      case StringParam(s) => Opcode(PushString(s));
      case IntegerParam(n) => Opcode(PushLiteral(Num(n)));
      case BooleanParam(b) => Opcode(PushLiteral(Bool(b)));
    }

    method PushParams(params: seq<Param>)
      requires Valid()
      modifies this`opcodes, this`list, this`marks
      ensures Valid() && State() == Grown(old(State()), EmitParams(params))
    {
      ghost var was := State();
      var i := |params|;
      GrownByNothing(was);
      while i > 0
        invariant 0 <= i <= |params|
        invariant Valid() && State() == Grown(was, EmitParams(params[i..]))
      {
        i := i - 1;
        Param(params[i]);
        assert params[i..][1..] == params[i + 1..];
        GrownTwice(was, EmitParams(params[i + 1..]), EmitParam(params[i]));
      }
      assert params[0..] == params;
    }

    method Hash(pairs: seq<(string, Param)>)
      requires Valid()
      modifies this`opcodes, this`list, this`marks
      ensures Valid()
      ensures State() == Grown(old(State()), Join(Ops([PushHash]), Join(EmitPairs(pairs), Ops([PopHash]))))
    {
      ghost var was := State();
      Opcode(PushHash);
      ghost var begun := State();
      var i := 0;
      GrownByNothing(begun);
      while i < |pairs|
        invariant 0 <= i <= |pairs|
        invariant Valid() && State() == Grown(begun, EmitPairs(pairs[..i]))
      {
        ghost var here := State();
        Param(pairs[i].1);
        Opcode(AssignToHash(pairs[i].0));
        GrownTwice(here, EmitParam(pairs[i].1), Ops([AssignToHash(pairs[i].0)]));
        GrownTwice(begun, EmitPairs(pairs[..i]), Join(EmitParam(pairs[i].1), Ops([AssignToHash(pairs[i].0)])));
        assert pairs[..i + 1][..i] == pairs[..i];
        i := i + 1;
      }
      assert pairs[..i] == pairs;
      Opcode(PopHash);
      GrownTwice(begun, EmitPairs(pairs), Ops([PopHash]));
      GrownTwice(was, Ops([PushHash]), Join(EmitPairs(pairs), Ops([PopHash])));
    }

    method SetupFullMustacheParams(m: Mustache, program: Option<nat>, inverse: Option<nat>)
      requires Valid()
      modifies this`opcodes, this`list, this`marks
      ensures Valid()
      ensures State() == Grown(old(State()),
                Join(EmitParams(m.params), Join(Ops([PushProgram(program), PushProgram(inverse)]), EmitHash(m))))
    {
      ghost var was := State();
      PushParams(m.params);
      ghost var params := State();
      Opcode(PushProgram(program));
      Opcode(PushProgram(inverse));
      GrownTwice(params, Ops([PushProgram(program)]), Ops([PushProgram(inverse)]));
      ghost var kids := Ops([PushProgram(program), PushProgram(inverse)]);
      assert Join(Ops([PushProgram(program)]), Ops([PushProgram(inverse)])) == kids;
      if m.hash.Some? {
        Hash(m.hash.value);
      } else {
        Opcode(EmptyHash);
      }
      GrownTwice(params, kids, EmitHash(m));
      GrownTwice(was, EmitParams(m.params), Join(kids, EmitHash(m)));
    }

    // Answers false where the source throws.
    method HelperMustache(m: Mustache, program: Option<nat>, inverse: Option<nat>) returns (ok: bool)
      requires Valid()
      modifies this`opcodes, this`list, this`marks
      ensures Valid() && (ok <==> Name(m) in O().knownHelpers || !knownHelpersOnly)
      ensures ok ==> State() == Grown(old(State()), EmitHelper(O(), m, program, inverse))
    {
      ghost var was := State();
      SetupFullMustacheParams(m, program, inverse);
      var name := if |m.id.parts| > 0 then m.id.parts[0] else "";
      var isKnown := name in known && known[name];
      if !isKnown && knownHelpersOnly { return false; }
      ok := true;
      var call := if isKnown then InvokeKnownHelper(|m.params|, name) else InvokeHelper(|m.params|, name);
      Opcode(call);
      ghost var kids := Ops([PushProgram(program), PushProgram(inverse)]);
      GrownTwice(was, Join(EmitParams(m.params), Join(kids, EmitHash(m))), Ops([call]));
      JoinShape(EmitParams(m.params), kids, EmitHash(m), Ops([call]));
    }

    method AmbiguousMustache(m: Mustache, program: Option<nat>, inverse: Option<nat>)
      requires Valid()
      modifies this`opcodes
      ensures Valid() && State() == Grown(old(State()), EmitAmbiguous(m, program, inverse))
    {
      ghost var was := State();
      Opcode(GetContext(m.id.depth));
      Opcode(PushProgram(program));
      Opcode(PushProgram(inverse));
      Opcode(InvokeAmbiguous(if |m.id.parts| > 0 then m.id.parts[0] else ""));
      GrownByOps(was, EmitAmbiguous(m, program, inverse).ops);
      assert opcodes == was.ops + EmitAmbiguous(m, program, inverse).ops;
    }

    method SimpleMustache(m: Mustache)
      requires Valid()
      modifies this`opcodes, this`list, this`marks
      ensures Valid() && State() == Grown(old(State()), EmitSimple(m))
    {
      ghost var was := State();
      ID(m.id);
      Opcode(ResolvePossibleLambda);
      GrownTwice(was, EmitId(m.id), Ops([ResolvePossibleLambda]));
    }

    // The user, or else the built-in list, calls its name a known helper.
    ghost predicate Known(m: Mustache)
      reads this
    {
      |m.id.parts| > 0 && m.id.parts[0] in known && known[m.id.parts[0]]
    }

    method ClassifyMustache(m: Mustache) returns (kind: MustacheKind)
      ensures kind == Classify(O(), m)
      ensures kind == HelperKind <==> m.id.isSimple && (|m.params| > 0 || m.hash.Some? || Known(m))
      ensures kind == AmbiguousKind <==>
        m.id.isSimple && |m.params| == 0 && m.hash.None? && !Known(m) && !knownHelpersOnly
    {
      var isHelper := m.id.isSimple && (|m.params| > 0 || m.hash.Some?);
      var isEligible := m.id.isSimple;
      if isEligible && !isHelper {
        if |m.id.parts| > 0 && m.id.parts[0] in known && known[m.id.parts[0]] {
          isHelper := true;
        } else if knownHelpersOnly {
          isEligible := false;
        }
      }
      if isHelper { return HelperKind; }
      if isEligible { return AmbiguousKind; }
      return SimpleKind;
    }

    method HeadMustache(m: Mustache, program: Option<nat>, inverse: Option<nat>)
      returns (kind: MustacheKind, ok: bool)
      requires Valid()
      modifies this`opcodes, this`list, this`marks
      ensures Valid() && kind == Classify(O(), m) && (ok <==> !Refused(O(), m))
      ensures ok ==> State() == Grown(old(State()), EmitMustache(O(), m, program, inverse))
    {
      kind := ClassifyMustache(m);
      ok := true;
      match kind
      case SimpleKind => SimpleMustache(m);
      case HelperKind => ok := HelperMustache(m, program, inverse);
      case AmbiguousKind => AmbiguousMustache(m, program, inverse);
    }

    method MustacheStatement(m: Mustache) returns (ok: bool)
      requires Valid()
      modifies this`opcodes, this`list, this`marks
      ensures Valid() && (ok <==> !Refused(O(), m))
      ensures ok ==> State() == Grown(old(State()), EmitStatement(O(), Value(m), guid))
    {
      ghost var was := State();
      var kind;
      kind, ok := HeadMustache(m, None, None);
      if !ok { return; }
      var op := if m.escaped && !noEscape then AppendEscaped else Append;
      Opcode(op);
      GrownTwice(was, EmitMustache(O(), m, None, None), Ops([op]));
    }

    // The depths of a nested program from 2 up become depths of this one.
    method AdoptDepths(ds: seq<nat>)
      requires Valid()
      modifies this`list, this`marks
      ensures Valid() && list == AddDepths(old(list), ParentDepths(ds))
    {
      ghost var was := list;
      var i := 0;
      while i < |ds|
        invariant 0 <= i <= |ds|
        invariant Valid() && list == AddDepths(was, ParentDepths(ds[..i]))
      {
        var depth := ds[i];
        if depth >= 2 {
          GrownByDepth(State(), depth - 1);
          AddDepth(depth - 1);
        }
        OneMoreParentDepth(was, ds, i);
        i := i + 1;
      }
      assert ds[..i] == ds;
    }

    // A new compiler for the nested program, whose result becomes the next child.
    method CompileNested(p: Program) returns (number: nat, ok: bool)
      requires Valid() && known == Merged(known)
      modifies this
      ensures Valid() && known == old(known) && (ok <==> Accepted(O(), p))
      ensures ok ==> number == old(guid) && guid == number + 1
      ensures ok ==> State() == Grown(old(State()), EmitChild(O(), Some(p)))
      decreases p, 2
    {
      ghost var was := State();
      var nested := new Compiler(known, knownHelpersOnly, noEscape);
      var result: Compiled;
      result, ok := nested.Statements(p);
      number := guid;
      if !ok { return; }
      guid := guid + 1;
      children := children + [result];
      AdoptDepths(result.depths);
      NestedGrown(was, O(), p, result);
    }

    // A block may have no program, or no inverse.
    method CompileIfAny(p: Option<Program>) returns (number: Option<nat>, ok: bool)
      requires Valid() && known == Merged(known)
      modifies this
      ensures Valid() && known == old(known) && (ok <==> p.Some? ==> Accepted(O(), p.value))
      ensures ok ==>
        number == (if p.Some? then Some(old(guid)) else None) && guid == old(guid) + (if p.Some? then 1 else 0)
      ensures ok ==> State() == Grown(old(State()), EmitChild(O(), p))
      decreases p, 3
    {
      match p
      case None =>
        number, ok := None, true;
        GrownByNothing(State());
      case Some(nested) =>
        var n;
        n, ok := CompileNested(nested);
        number := Some(n);
    }

    // What block does after its head.
    method FinishBlock(m: Mustache, kind: MustacheKind, program: Option<nat>, inverse: Option<nat>)
      requires Valid() && kind == Classify(O(), m)
      modifies this`opcodes
      ensures Valid() && State() == Grown(old(State()), Ops(EmitBlockTail(O(), m, program, inverse) + [Append]))
    {
      ghost var was := State();
      if kind != HelperKind {
        Opcode(PushProgram(program));
        Opcode(PushProgram(inverse));
        Opcode(EmptyHash);
        Opcode(if kind == SimpleKind then BlockValue else AmbiguousBlockValue);
      }
      Opcode(Append);
      ghost var tail := EmitBlockTail(O(), m, program, inverse) + [Append];
      GrownByOps(was, tail);
      assert opcodes == was.ops + tail;
    }

    method Block(s: Statement) returns (ok: bool)
      requires s.Block? && Valid() && known == Merged(known)
      modifies this
      ensures Valid() && known == old(known) && (ok <==> StatementAccepted(O(), s))
      ensures ok ==> State() == Grown(old(State()), EmitStatement(O(), s, old(guid)))
      decreases s, 0
    {
      ghost var was := State();
      var program, inverse, kind;
      program, ok := CompileIfAny(s.program);
      if !ok { return; }
      inverse, ok := CompileIfAny(s.inverse);
      if !ok { return; }
      ghost var kids := Join(EmitChild(O(), s.program), EmitChild(O(), s.inverse));
      GrownTwice(was, EmitChild(O(), s.program), EmitChild(O(), s.inverse));
      ghost var begun := State();
      kind, ok := HeadMustache(s.head, program, inverse);
      if !ok { return; }
      FinishBlock(s.head, kind, program, inverse);
      ghost var head := EmitMustache(O(), s.head, program, inverse);
      ghost var tail := Ops(EmitBlockTail(O(), s.head, program, inverse) + [Append]);
      GrownTwice(begun, head, tail);
      GrownTwice(was, kids, Join(head, tail));
    }

    method Visit(s: Statement) returns (ok: bool)
      requires Valid() && known == Merged(known)
      modifies this
      ensures Valid() && known == old(known) && (ok <==> StatementAccepted(O(), s))
      ensures ok ==> State() == Grown(old(State()), EmitStatement(O(), s, old(guid)))
      decreases s, 1
    {
      ok := true;
      match s
      case Content(text) => Opcode(AppendContent(text));
      case Comment => GrownByNothing(State());
      case Value(m) => ok := MustacheStatement(m);
      case Block(_, _, _) => ok := Block(s);
    }

    method VisitAll(ss: seq<Statement>) returns (ok: bool)
      requires Valid() && known == Merged(known) && State() == Ops([])
      modifies this
      ensures Valid() && known == old(known)
      ensures ok <==> forall k :: 0 <= k < |ss| ==> StatementAccepted(O(), ss[k])
      ensures ok ==> State() == Grown(Ops([]), EmitStatements(O(), ss))
      decreases ss, 1
    {
      ghost var o := O();
      var i := 0;
      GrownByNothing(Ops([]));
      while i < |ss|
        invariant 0 <= i <= |ss|
        invariant Valid() && known == old(known) && O() == o
        invariant forall k :: 0 <= k < i ==> StatementAccepted(o, ss[k])
        invariant State() == Grown(Ops([]), EmitStatements(o, ss[..i]))
      {
        assert guid == |EmitStatements(o, ss[..i]).children|;
        ok := Visit(ss[i]);
        if !ok { return; }
        OneMoreStatement(Ops([]), o, ss, i);
        i := i + 1;
      }
      ok := true;
      assert ss[..i] == ss;
    }

    // program: every statement in order, then the depths sorted
    method Statements(p: Program) returns (result: Compiled, ok: bool)
      requires Valid() && known == Merged(known) && State() == Ops([])
      modifies this
      ensures Valid() && known == old(known) && (ok <==> Accepted(O(), p))
      ensures ok ==> result == CompileProgram(O(), p)
      ensures ok ==> State() == Emission(result.opcodes, result.depths, result.children) && isSimple == result.isSimple
      decreases p.statements, 2
    {
      ghost var o := O();
      opcodes := [];
      ok := VisitAll(p.statements);
      isSimple := |p.statements| == 1;
      SortMembers(list);
      list := Sort(list);
      result := Compiled(opcodes, list, children, isSimple);
      if ok { GrownFromNothing(EmitStatements(o, p.statements)); }
    }
  }
}
