// What the compiler emits for each node of the tree, as functions, and the compiler
// itself, which pushes onto its opcode, depth and child lists in loops.
module Emit {
  import opened Wrappers
  import opened Template
  import opened Opcodes

  // The opcodes a node adds, the addDepth calls it makes in order, and the nested
  // programs it compiles.
  datatype Emission = Emission(ops: seq<Op>, depths: seq<nat>, children: seq<Compiled>)

  function Join(a: Emission, b: Emission): Emission {
    Emission(a.ops + b.ops, a.depths + b.depths, a.children + b.children)
  }

  function Ops(ops: seq<Op>): Emission { Emission(ops, [], []) }

  // ---- depth lists ----

  // addDepth: each non-zero depth once
  function AddDepth(list: seq<nat>, d: nat): seq<nat> {
    if d == 0 || d in list then list else list + [d]
  }

  function AddDepths(list: seq<nat>, ds: seq<nat>): seq<nat> {
    if |ds| == 0 then list else AddDepth(AddDepths(list, ds[..|ds| - 1]), ds[|ds| - 1])
  }

  function Insert(d: nat, sorted: seq<nat>): seq<nat> {
    if |sorted| == 0 || d <= sorted[0] then [d] + sorted else [sorted[0]] + Insert(d, sorted[1..])
  }

  // Array.sort with a - b
  function Sort(list: seq<nat>): seq<nat> {
    if |list| == 0 then [] else Insert(list[|list| - 1], Sort(list[..|list| - 1]))
  }

  // compileProgram: what a child's depths mean to its parent
  function ParentDepths(ds: seq<nat>): seq<nat> {
    if |ds| == 0 then []
    else ParentDepths(ds[..|ds| - 1]) + if ds[|ds| - 1] < 2 then [] else [ds[|ds| - 1] - 1]
  }

  // ---- nodes ----

  function Lookups(names: seq<string>): seq<Op> {
    if |names| == 0 then [] else Lookups(names[..|names| - 1]) + [Lookup(names[|names| - 1])]
  }

  function EmitId(id: Id): Emission {
    Emission([GetContext(id.depth)]
             + (if |id.parts| == 0 || id.parts[0] == "" then [PushContext] else [LookupOnContext(id.parts[0])])
             + Lookups(if |id.parts| == 0 then [] else id.parts[1..]),
             [id.depth], [])
  }

  function EmitParam(p: Param): Emission {
    match p
    case PathParam(id) => EmitId(id)
    case StringParam(s) => Ops([PushString(s)])
    case IntegerParam(n) => Ops([PushLiteral(Num(n))])
    case BooleanParam(b) => Ops([PushLiteral(Bool(b))])
  }

  // pushParams: last to first
  function EmitParams(ps: seq<Param>): Emission {
    if |ps| == 0 then Ops([]) else Join(EmitParams(ps[1..]), EmitParam(ps[0]))
  }

  function EmitPairs(pairs: seq<(string, Param)>): Emission {
    if |pairs| == 0 then Ops([])
    else Join(EmitPairs(pairs[..|pairs| - 1]),
              Join(EmitParam(pairs[|pairs| - 1].1), Ops([AssignToHash(pairs[|pairs| - 1].0)])))
  }

  function EmitHash(m: Mustache): Emission {
    if m.hash.None? then Ops([EmptyHash])
    else Join(Ops([PushHash]), Join(EmitPairs(m.hash.value), Ops([PopHash])))
  }

  function Invoke(o: Options, n: nat, name: string): Op {
    if name in o.knownHelpers then InvokeKnownHelper(n, name) else InvokeHelper(n, name)
  }

  function EmitHelper(o: Options, m: Mustache, program: Option<nat>, inverse: Option<nat>): Emission {
    Join(EmitParams(m.params),
         Join(Ops([PushProgram(program), PushProgram(inverse)]),
              Join(EmitHash(m),
                   Ops([Invoke(o, |m.params|, Name(m))]))))
  }

  function EmitAmbiguous(m: Mustache, program: Option<nat>, inverse: Option<nat>): Emission {
    Ops([GetContext(m.id.depth), PushProgram(program), PushProgram(inverse), InvokeAmbiguous(Name(m))])
  }

  function EmitSimple(m: Mustache): Emission {
    Join(EmitId(m.id), Ops([ResolvePossibleLambda]))
  }

  function EmitMustache(o: Options, m: Mustache, program: Option<nat>, inverse: Option<nat>): Emission {
    match Classify(o, m)
    case HelperKind => EmitHelper(o, m, program, inverse)
    case AmbiguousKind => EmitAmbiguous(m, program, inverse)
    case SimpleKind => EmitSimple(m)
  }

  // What follows a block's head before its value is appended.
  function EmitBlockTail(o: Options, m: Mustache, program: Option<nat>, inverse: Option<nat>): seq<Op> {
    match Classify(o, m)
    case HelperKind => []
    case AmbiguousKind => [PushProgram(program), PushProgram(inverse), EmptyHash, AmbiguousBlockValue]
    case SimpleKind => [PushProgram(program), PushProgram(inverse), EmptyHash, BlockValue]
  }

  // A nested program: it becomes a child, and its depths beyond the first reach this
  // program.
  function EmitChild(o: Options, p: Option<Program>): Emission
    decreases p, 5
  {
    if p.None? then Ops([])
    else var child := CompileProgram(o, p.value); Emission([], ParentDepths(child.depths), [child])
  }

  // guid is the number of children compiled so far.
  function EmitStatement(o: Options, s: Statement, guid: nat): Emission
    decreases s, 6
  {
    match s
    case Content(text) => Ops([AppendContent(text)])
    case Comment => Ops([])
    case Value(m) =>
      Join(EmitMustache(o, m, None, None), Ops([if m.escaped && !o.noEscape then AppendEscaped else Append]))
    case Block(head, program, inverse) =>
      var kids := Join(EmitChild(o, program), EmitChild(o, inverse));
      var g1 := if program.Some? then Some(guid) else None;
      var g2 := if inverse.Some? then Some(guid + if program.Some? then 1 else 0) else None;
      Join(kids, Join(EmitMustache(o, head, g1, g2), Ops(EmitBlockTail(o, head, g1, g2) + [Append])))
  }

  function EmitStatements(o: Options, ss: seq<Statement>): Emission
    decreases ss, 7
  {
    if |ss| == 0 then Ops([])
    else var before := EmitStatements(o, ss[..|ss| - 1]);
         Join(before, EmitStatement(o, ss[|ss| - 1], |before.children|))
  }

  function CompileProgram(o: Options, p: Program): Compiled
    decreases p, 8
  {
    var e := EmitStatements(o, p.statements);
    Compiled(e.ops, Sort(AddDepths([], e.depths)), e.children, |p.statements| == 1)
  }
}
