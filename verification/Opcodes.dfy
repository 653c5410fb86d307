// The opcodes the template compiler emits, the tree of compiled programs, and the stack
// machine the opcode comments describe.
module Opcodes {
  import opened Wrappers
  import opened Template

  datatype Op =
    | AppendContent(text: string)
    | Append
    | AppendEscaped
    | GetContext(depth: nat)
    | LookupOnContext(name: string)
    | PushContext
    | ResolvePossibleLambda
    | Lookup(name: string)
    | PushString(s: string)
    | PushLiteral(v: Val)
    | PushProgram(guid: Option<nat>)
    | EmptyHash
    | PushHash
    | AssignToHash(key: string)
    | PopHash
    | InvokeHelper(params: nat, name: string)
    | InvokeKnownHelper(params: nat, name: string)
    | InvokeAmbiguous(name: string)
    | BlockValue
    | AmbiguousBlockValue

  // A compiled program: its code, the depths beyond its own context it uses, ascending,
  // its nested programs, and whether it was compiled from exactly one statement.
  datatype Compiled = Compiled(opcodes: seq<Op>, depths: seq<nat>, children: seq<Compiled>, isSimple: bool)

  // What a running program has bound: depth0, and a parameter depthK for each K in its
  // depth list.
  datatype Frame = Frame(depth0: Val, bound: map<nat, Val>)

  // A nested program paired with the values passed for its depth parameters.
  datatype Closure = Closure(guid: nat, args: seq<Val>)

  datatype Item = V(v: Val) | P(closure: Option<Closure>) | H(hash: map<string, Val>)

  // The machine: stack (top last), buffer, depth of the last context selected, the hash
  // being built, and the name of the last ambiguous call.
  datatype Machine = Machine(
    stack: seq<Item>, out: string, last: nat, hash: map<string, Val>, lastHelper: string)

  // Returned is a return statement in the middle of the code.  Stuck is a machine fault:
  // an empty stack, an item of the wrong kind, values left behind at a return, a depth
  // that is not bound or a program that does not exist.
  datatype Run<+T> = Halted(value: T) | Returned(v: Val) | Exception | Stuck

  function Lift<T>(o: Outcome<T>): Run<T> {
    match o
    case Done(v) => Halted(v)
    case Thrown => Exception
  }

  function DepthValue(f: Frame, d: nat): Option<Val> {
    if d == 0 then Some(f.depth0)
    else if d in f.bound then Some(f.bound[d])
    else None
  }

  // programExpression: the argument for a nested depth d is this program's depth d - 1.
  function Capture(f: Frame, depths: seq<nat>): Option<seq<Val>> {
    if |depths| == 0 then Some([])
    else match (Capture(f, depths[..|depths| - 1]),
                DepthValue(f, if depths[|depths| - 1] == 0 then 0 else depths[|depths| - 1] - 1))
         case (Some(vs), Some(v)) => Some(vs + [v])
         case (_, _) => None
  }

  // VM.program and VM.programWithDepth: the context, then one argument per depth.
  function MakeFrame(ctx: Val, depths: seq<nat>, args: seq<Val>): Frame
    requires |depths| == |args|
  {
    Frame(ctx, map d | d in depths :: args[IndexOf(depths, d)])
  }

  function IndexOf(depths: seq<nat>, d: nat): (k: nat)
    requires d in depths
    ensures k < |depths| && depths[k] == d
  {
    if depths[0] == d then 0 else 1 + IndexOf(depths[1..], d)
  }

  // ---- execution ----

  const START := Machine([], "", 0, map[], "")

  // A program of one statement has no buffer: it returns from its statement, or falls off
  // its end.
  ghost function RunProgram(c: Compiled, f: Frame, env: Env): Run<Val>
    decreases c, 7
  {
    match RunOps(c, f, env, c.opcodes, START)
    case Halted(m) => if |m.stack| != 0 then Stuck else Halted(if c.isSimple then Undefined else Str(m.out))
    case Returned(v) => Halted(v)
    case Exception => Exception
    case Stuck => Stuck
  }

  ghost function RunOps(c: Compiled, f: Frame, env: Env, ops: seq<Op>, m: Machine): Run<Machine>
    decreases c, 6, |ops|
  {
    if |ops| == 0 then Halted(m)
    else match RunOps(c, f, env, ops[..|ops| - 1], m)
         case Halted(m') => Step(c, f, env, ops[|ops| - 1], m')
         case Returned(v) => Returned(v)
         case Exception => Exception
         case Stuck => Stuck
  }

  function Push(m: Machine, i: Item): Machine { m.(stack := m.stack + [i]) }

  // The stack without its top n items.
  function Drop(m: Machine, n: nat): Machine
    requires n <= |m.stack|
  {
    m.(stack := m.stack[..|m.stack| - n])
  }

  // The k-th item from the top.
  function Peek(m: Machine, k: nat): Item
    requires k < |m.stack|
  {
    m.stack[|m.stack| - 1 - k]
  }

  // The n parameters below the top three items, the first one on top.
  function PopParams(stack: seq<Item>, n: nat): Option<seq<Val>> {
    if n == 0 then Some([])
    else if |stack| == 0 || !stack[|stack| - 1].V? then None
    else match PopParams(stack[..|stack| - 1], n - 1)
         case None => None
         case Some(vs) => Some([stack[|stack| - 1].v] + vs)
  }

  predicate HasCall(m: Machine, n: nat) {
    |m.stack| >= n + 3 && Peek(m, 0).H? && Peek(m, 1).P? && Peek(m, 2).P?
    && PopParams(m.stack[..|m.stack| - 3], n).Some?
  }

  // hash, inverse, program and a value below them
  predicate HasBlockValue(m: Machine) {
    |m.stack| >= 4 && Peek(m, 0).H? && Peek(m, 1).P? && Peek(m, 2).P? && Peek(m, 3).V?
  }

  function Finish(m: Machine, r: Run<Val>): Run<Machine> {
    match r
    case Halted(v) => Halted(Push(m, V(v)))
    case Returned(v) => Returned(v)
    case Exception => Exception
    case Stuck => Stuck
  }

  // appendToBuffer: in a program of one statement it is a return.
  function Emitted(c: Compiled, env: Env, m: Machine, v: Val): Run<Machine> {
    if !c.isSimple then Halted(m.(out := m.out + ToText(env, v)))
    else if |m.stack| != 0 then Stuck
    else Returned(v)
  }

  ghost function Step(c: Compiled, f: Frame, env: Env, op: Op, m: Machine): Run<Machine>
    decreases c, 5
  {
    match op
    case AppendContent(text) => Emitted(c, env, m, Str(text))
    case Append =>
      if |m.stack| == 0 || !Peek(m, 0).V? then Stuck
      else Emitted(c, env, Drop(m, 1), Kept(Peek(m, 0).v))
    case AppendEscaped =>
      if |m.stack| == 0 || !Peek(m, 0).V? then Stuck
      else Emitted(c, env, Drop(m, 1), Str(Escaped(env, Peek(m, 0).v)))
    case GetContext(depth) => Halted(m.(last := depth))
    case LookupOnContext(name) =>
      (match DepthValue(f, m.last)
       case Some(v) => Finish(m, Lift(FirstLookup(env, v, name)))
       case None => Stuck)
    case PushContext =>
      (match DepthValue(f, m.last)
       case Some(v) => Halted(Push(m, V(v)))
       case None => Stuck)
    case ResolvePossibleLambda =>
      if |m.stack| == 0 || !Peek(m, 0).V? then Stuck else Halted(m)
    case Lookup(name) =>
      if |m.stack| == 0 || !Peek(m, 0).V? then Stuck
      else Halted(Push(Drop(m, 1), V(LaterLookup(env, Peek(m, 0).v, name))))
    case PushString(s) => Halted(Push(m, V(Str(s))))
    case PushLiteral(v) => Halted(Push(m, V(v)))
    case PushProgram(None) => Halted(Push(m, P(None)))
    case PushProgram(Some(guid)) =>
      if guid >= |c.children| then Stuck
      else (match Capture(f, c.children[guid].depths)
            case Some(args) => Halted(Push(m, P(Some(Closure(guid, args)))))
            case None => Stuck)
    case EmptyHash => Halted(Push(m, H(map[])))
    case PushHash => Halted(m.(hash := map[]))
    case AssignToHash(key) =>
      if |m.stack| == 0 || !Peek(m, 0).V? then Stuck
      else Halted(Drop(m, 1).(hash := m.hash[key := Peek(m, 0).v]))
    case PopHash => Halted(Push(m.(hash := map[]), H(m.hash)))
    case InvokeHelper(n, name) =>
      if !HasCall(m, n) then Stuck
      else if name in env.helpers then RunCall(c, f, env, m, n, env.helpers[name], [])
      else (match DepthValue(f, m.last)
            case Some(ctx) =>
              (match FirstLookup(env, ctx, name)
               case Thrown => Exception
               case Done(v) =>
                 if Truthy(v) then Exception else RunCall(c, f, env, m, n, env.helperMissing, [Str(name)]))
            case None => Stuck)
    case InvokeKnownHelper(n, name) =>
      if !HasCall(m, n) then Stuck
      else if name in env.helpers then RunCall(c, f, env, m, n, env.helpers[name], [])
      else Exception
    case InvokeAmbiguous(name) =>
      if |m.stack| < 2 || !Peek(m, 0).P? || !Peek(m, 1).P? then Stuck
      else var rest := Drop(m, 2).(lastHelper := name);
           if name in env.helpers
           then Finish(rest, CallHelper(c.children, env, env.helpers[name], f.depth0, [], map[],
                                        Peek(m, 1).closure, Peek(m, 0).closure))
           else (match DepthValue(f, m.last)
                 case Some(ctx) => Finish(rest, Lift(FirstLookup(env, ctx, name)))
                 case None => Stuck)
    case BlockValue => if !HasBlockValue(m) then Stuck else RunBlockValue(c, f, env, m)
    case AmbiguousBlockValue =>
      if !HasBlockValue(m) then Stuck
      else if m.lastHelper in env.helpers then Halted(Drop(m, 3))
      else RunBlockValue(c, f, env, m)
  }

  // Pop the operands of a call, and call the helper with the arguments after those in
  // front.
  ghost function RunCall(c: Compiled, f: Frame, env: Env, m: Machine, n: nat, helper: Helper, front: seq<Val>)
    : Run<Machine>
    requires HasCall(m, n)
    decreases c, 4
  {
    Finish(Drop(m, n + 3),
      CallHelper(c.children, env, helper, f.depth0, front + PopParams(m.stack[..|m.stack| - 3], n).value,
                 Peek(m, 0).hash, Peek(m, 2).closure, Peek(m, 1).closure))
  }

  // blockHelperMissing on the value below hash, inverse and program.
  ghost function RunBlockValue(c: Compiled, f: Frame, env: Env, m: Machine): Run<Machine>
    requires HasBlockValue(m)
    decreases c, 4
  {
    Finish(Drop(m, 4),
      CallHelper(c.children, env, env.blockHelperMissing, f.depth0, [Peek(m, 3).v],
                 Peek(m, 0).hash, Peek(m, 2).closure, Peek(m, 1).closure))
  }

  // A call with its bodies, if there are any.  A body that faults in any context at all
  // counts as a fault of the call.
  ghost function CallHelper(kids: seq<Compiled>, env: Env, helper: Helper, self: Val, args: seq<Val>,
                            hash: map<string, Val>, program: Option<Closure>, inverse: Option<Closure>)
    : (r: Run<Val>)
    ensures !r.Returned?
    decreases kids, 3
  {
    if program.None? && inverse.None? then Lift(helper(self, args, hash, NoBodies))
    else if Faulty(kids, env, program) || Faulty(kids, env, inverse) then Stuck
    else Lift(helper(self, args, hash, Bodies(Entered(kids, env, program), Entered(kids, env, inverse))))
  }

  ghost predicate Faulty(kids: seq<Compiled>, env: Env, q: Option<Closure>)
    decreases kids, 2
  {
    q.Some? && exists ctx :: Enter(kids, env, q.value, ctx).Stuck?
  }

  // self.noop for a program that is missing
  ghost function Entered(kids: seq<Compiled>, env: Env, q: Option<Closure>): Val -> Outcome<Val>
    decreases kids, 2
  {
    match q
    case None => (_ => Done(Str("")))
    case Some(p) => (ctx => Landed(Enter(kids, env, p, ctx)))
  }

  function Landed(r: Run<Val>): Outcome<Val> {
    match r
    case Halted(v) => Done(v)
    case Returned(v) => Done(v)
    case Exception => Thrown
    case Stuck => Thrown
  }

  ghost function Enter(kids: seq<Compiled>, env: Env, p: Closure, ctx: Val): Run<Val>
    decreases kids, 1
  {
    if p.guid >= |kids| || |p.args| != |kids[p.guid].depths| then Stuck
    else RunProgram(kids[p.guid], MakeFrame(ctx, kids[p.guid].depths, p.args), env)
  }

  // A template called from outside: the context, and no argument for any depth.
  ghost function RunTemplate(c: Compiled, env: Env, ctx: Val): Run<Val> {
    RunProgram(c, MakeFrame(ctx, c.depths, NoArguments(|c.depths|)), env)
  }

  function NoArguments(n: nat): (vs: seq<Val>)
    ensures |vs| == n && forall k :: 0 <= k < n ==> vs[k] == Undefined
  {
    seq(n, _ => Undefined)
  }
}
