// Handlebars templates: the syntax tree the compiler receives, the values a template
// sees, and the meaning of a template as a direct walk over the tree with a stack of
// contexts.
module Template {
  import opened Wrappers

  // IdNode: how far up the context stack the path starts, and its names.  A simple id is
  // one name in the current context.
  datatype Id = Id(depth: nat, parts: seq<string>, isSimple: bool)

  datatype Param =
    | PathParam(id: Id)
    | StringParam(s: string)
    | IntegerParam(n: int)
    | BooleanParam(b: bool)

  datatype Mustache = Mustache(
    id: Id, params: seq<Param>, hash: Option<seq<(string, Param)>>, escaped: bool)

  datatype Statement =
    | Content(text: string)
    | Comment
    | Value(m: Mustache)
    | Block(head: Mustache, program: Option<Program>, inverse: Option<Program>)

  datatype Program = Program(statements: seq<Statement>)

  // ---- IdNode's constructor ----

  predicate Dots(part: string) { part == ".." || part == "." || part == "this" }

  // The path segments as the grammar delivers them; None is the "Invalid path" error.
  function MakeId(parts: seq<string>): Option<Id> {
    match Walk(parts)
    case None => None
    case Some((depth, dig, scoped)) => Some(Id(depth, dig, |parts| == 1 && !scoped && depth == 0))
  }

  function Walk(parts: seq<string>): Option<(nat, seq<string>, bool)> {
    if |parts| == 0 then Some((0, [], false))
    else match Walk(parts[..|parts| - 1])
         case None => None
         case Some((depth, dig, scoped)) =>
           var part := parts[|parts| - 1];
           if !Dots(part) then Some((depth, dig + [part], scoped))
           else if |dig| > 0 then None
           else if part == ".." then Some((depth + 1, dig, scoped))
           else Some((depth, dig, true))
  }

  // A simple id is one name looked up in the current context.
  predicate IdOk(id: Id) { id.isSimple ==> id.depth == 0 && |id.parts| == 1 }

  lemma MakeIdIsOk(parts: seq<string>)
    ensures MakeId(parts).Some? ==> IdOk(MakeId(parts).value)
  {
    if |parts| == 1 { assert Walk(parts[..0]) == Some((0, [], false)); }
  }

  // ---- values and helpers ----

  datatype Val =
    | Undefined
    | Null
    | Bool(b: bool)
    | Num(n: int)
    | Str(s: string)
    | Safe(html: string)               // Handlebars.SafeString
    | Arr(items: seq<Val>)
    | Obj(fields: map<string, Val>)

  datatype Outcome<+T> = Done(value: T) | Thrown

  // options.fn and options.inverse: what a block's two programs return in a context of the
  // helper's choice.  Outside a block there are none.
  datatype Bodies = NoBodies | Bodies(fn: Val -> Outcome<Val>, inverse: Val -> Outcome<Val>)

  // A helper: this, the arguments, the hash and the bodies.
  type Helper = (Val, seq<Val>, map<string, Val>, Bodies) -> Outcome<Val>

  // The runtime a template runs in.
  datatype Env = Env(
    helpers: map<string, Helper>,
    helperMissing: Helper,
    blockHelperMissing: Helper,
    property: (Val, string) -> Val,    // v[name] for v not null or undefined
    toText: Val -> string)             // string conversion of numbers, arrays and objects

  // Bodies a helper cannot tell apart by calling them.
  ghost predicate Agree(f: Val -> Outcome<Val>, g: Val -> Outcome<Val>) { forall x :: f(x) == g(x) }

  ghost predicate BodiesAgree(a: Bodies, b: Bodies) {
    a.Bodies? == b.Bodies? && (a.Bodies? ==> Agree(a.fn, b.fn) && Agree(a.inverse, b.inverse))
  }

  // A helper sees its bodies only by calling them.
  ghost predicate CallsOnly(h: Helper) {
    forall self, args, hash, a, b :: BodiesAgree(a, b) ==> h(self, args, hash, a) == h(self, args, hash, b)
  }

  ghost predicate EnvOk(env: Env) {
    && CallsOnly(env.helperMissing) && CallsOnly(env.blockHelperMissing)
    && forall name :: name in env.helpers ==> CallsOnly(env.helpers[name])
  }

  // What the compiler is told: the helpers it may count on, the built-in ones among them,
  // and two switches.
  datatype Options = Options(knownHelpers: set<string>, knownHelpersOnly: bool, noEscape: bool)

  predicate Truthy(v: Val) {
    match v
    case Undefined => false
    case Null => false
    case Bool(b) => b
    case Num(n) => n != 0
    case Str(s) => |s| > 0
    case Safe(_) => true
    case Arr(_) => true
    case Obj(_) => true
  }

  // What a value becomes when it is added to a string.
  function ToText(env: Env, v: Val): string {
    match v
    case Undefined => "undefined"
    case Null => "null"
    case Bool(b) => if b then "true" else "false"
    case Str(s) => s
    case Safe(html) => html
    case _ => env.toText(v)
  }

  // append: a falsy value other than 0 counts as the empty string
  function Kept(v: Val): Val { if Truthy(v) || v == Num(0) then v else Str("") }

  function EscapeChar(c: char): string {
    if c == '&' then "&amp;"
    else if c == '<' then "&lt;"
    else if c == '>' then "&gt;"
    else if c == '"' then "&quot;"
    else if c == '\'' then "&#x27;"
    else if c == '`' then "&#x60;"
    else [c]
  }

  function EscapeText(s: string): string {
    if |s| == 0 then "" else EscapeChar(s[0]) + EscapeText(s[1..])
  }

  // Utils.escapeExpression
  function Escaped(env: Env, v: Val): string {
    match v
    case Safe(html) => html
    case Undefined => ""
    case Null => ""
    case Bool(false) => ""
    case _ => EscapeText(ToText(env, v))
  }

  // ---- paths ----

  // The k-th enclosing context; above the root there is nothing.
  function ContextAt(ctxs: seq<Val>, k: nat): Val {
    if k < |ctxs| then ctxs[k] else Undefined
  }

  // The first name of a path: null and undefined have no properties.
  function FirstLookup(env: Env, v: Val, name: string): Outcome<Val> {
    if v == Undefined || v == Null then Thrown else Done(env.property(v, name))
  }

  // Later names pass null, undefined and false through.
  function LaterLookup(env: Env, v: Val, name: string): Val {
    if v == Undefined || v == Null || v == Bool(false) then v else env.property(v, name)
  }

  function LaterLookups(env: Env, v: Val, names: seq<string>): Val {
    if |names| == 0 then v
    else LaterLookup(env, LaterLookups(env, v, names[..|names| - 1]), names[|names| - 1])
  }

  function PathValue(env: Env, id: Id, ctxs: seq<Val>): Outcome<Val> {
    var start := ContextAt(ctxs, id.depth);
    if |id.parts| == 0 || id.parts[0] == ""
    then Done(LaterLookups(env, start, if |id.parts| == 0 then [] else id.parts[1..]))
    else match FirstLookup(env, start, id.parts[0])
         case Done(v) => Done(LaterLookups(env, v, id.parts[1..]))
         case Thrown => Thrown
  }

  function ParamValue(env: Env, p: Param, ctxs: seq<Val>): Outcome<Val> {
    match p
    case PathParam(id) => PathValue(env, id, ctxs)
    case StringParam(s) => Done(Str(s))
    case IntegerParam(n) => Done(Num(n))
    case BooleanParam(b) => Done(Bool(b))
  }

  // All parameters, or an exception if any of them throws.
  function ParamValues(env: Env, ps: seq<Param>, ctxs: seq<Val>): Outcome<seq<Val>> {
    if |ps| == 0 then Done([])
    else match (ParamValue(env, ps[0], ctxs), ParamValues(env, ps[1..], ctxs))
         case (Done(v), Done(vs)) => Done([v] + vs)
         case (_, _) => Thrown
  }

  function HashValues(env: Env, pairs: seq<(string, Param)>, ctxs: seq<Val>): Outcome<map<string, Val>> {
    if |pairs| == 0 then Done(map[])
    else match (HashValues(env, pairs[..|pairs| - 1], ctxs), ParamValue(env, pairs[|pairs| - 1].1, ctxs))
         case (Done(h), Done(v)) => Done(h[pairs[|pairs| - 1].0 := v])
         case (_, _) => Thrown
  }

  function HashOf(env: Env, m: Mustache, ctxs: seq<Val>): Outcome<map<string, Val>> {
    if m.hash.None? then Done(map[]) else HashValues(env, m.hash.value, ctxs)
  }

  // ---- what kind of mustache ----

  datatype MustacheKind = HelperKind | AmbiguousKind | SimpleKind

  function Classify(o: Options, m: Mustache): MustacheKind {
    var isHelper := m.id.isSimple && (|m.params| > 0 || m.hash.Some?);
    var known := m.id.isSimple && !isHelper && |m.id.parts| > 0 && m.id.parts[0] in o.knownHelpers;
    if isHelper || known then HelperKind
    else if m.id.isSimple && !o.knownHelpersOnly then AmbiguousKind
    else SimpleKind
  }

  // With knownHelpersOnly, the compiler refuses the call of any other helper.
  predicate Refused(o: Options, m: Mustache) {
    Classify(o, m) == HelperKind && Name(m) !in o.knownHelpers && o.knownHelpersOnly
  }

  // ---- the context the fallback of an unknown helper is looked up in ----

  // A helper that is not registered falls back to a property, not of the current context,
  // but of the context of the last path compiled before the call.  `last` is the depth of
  // that path.
  function LastOfParam(p: Param, last: nat): nat {
    if p.PathParam? then p.id.depth else last
  }

  // Parameters are compiled last to first.
  function LastOfParams(ps: seq<Param>, last: nat): nat {
    if |ps| == 0 then last else LastOfParam(ps[0], LastOfParams(ps[1..], last))
  }

  function LastOfPairs(pairs: seq<(string, Param)>, last: nat): nat {
    if |pairs| == 0 then last else LastOfParam(pairs[|pairs| - 1].1, LastOfPairs(pairs[..|pairs| - 1], last))
  }

  function LastOfHash(m: Mustache, last: nat): nat {
    if m.hash.None? then last else LastOfPairs(m.hash.value, last)
  }

  function LastOfMustache(o: Options, m: Mustache, last: nat): nat {
    match Classify(o, m)
    case HelperKind => LastOfHash(m, LastOfParams(m.params, last))
    case AmbiguousKind => m.id.depth
    case SimpleKind => m.id.depth
  }

  function LastOfStatement(o: Options, s: Statement, last: nat): nat {
    match s
    case Content(_) => last
    case Comment => last
    case Value(m) => LastOfMustache(o, m, last)
    case Block(head, _, _) => LastOfMustache(o, head, last)
  }

  // ---- the meaning of a template ----

  function Name(m: Mustache): string { if |m.id.parts| > 0 then m.id.parts[0] else "" }

  // What a program returns in a stack of contexts.  A program of one statement returns
  // that statement's value as it is, and nothing if the statement is a comment; any other
  // returns its text.
  function Interp(o: Options, env: Env, p: Program, ctxs: seq<Val>): Outcome<Val>
    decreases p, 6
  {
    if |p.statements| == 1 then
      match StatementValue(o, env, p.statements[0], ctxs, 0)
      case Done(Some(v)) => Done(v)
      case Done(None) => Done(Undefined)
      case Thrown => Thrown
    else
      match InterpStatements(o, env, p.statements, ctxs)
      case Done(text) => Done(Str(text))
      case Thrown => Thrown
  }

  function LastOfStatements(o: Options, ss: seq<Statement>): nat {
    if |ss| == 0 then 0
    else LastOfStatement(o, ss[|ss| - 1], LastOfStatements(o, ss[..|ss| - 1]))
  }

  // The text of a list of statements, one after the other.
  function InterpStatements(o: Options, env: Env, ss: seq<Statement>, ctxs: seq<Val>): Outcome<string>
    decreases ss, 5
  {
    if |ss| == 0 then Done("")
    else Concat(InterpStatements(o, env, ss[..|ss| - 1], ctxs),
                InterpStatement(o, env, ss[|ss| - 1], ctxs, LastOfStatements(o, ss[..|ss| - 1])))
  }

  // One text after another.
  function Concat(a: Outcome<string>, b: Outcome<string>): Outcome<string> {
    match a
    case Done(before) => (match b case Done(text) => Done(before + text) case Thrown => Thrown)
    case Thrown => Thrown
  }

  function InterpStatement(o: Options, env: Env, s: Statement, ctxs: seq<Val>, last: nat): Outcome<string>
    decreases s, 4
  {
    match StatementValue(o, env, s, ctxs, last)
    case Done(Some(v)) => Done(ToText(env, v))
    case Done(None) => Done("")
    case Thrown => Thrown
  }

  // The value a statement appends; a comment appends none.
  function StatementValue(o: Options, env: Env, s: Statement, ctxs: seq<Val>, last: nat): Outcome<Option<Val>>
    decreases s, 3
  {
    match s
    case Content(text) => Done(Some(Str(text)))
    case Comment => Done(None)
    case Value(m) =>
      (match MustacheValue(o, env, s, m, ctxs, last)
       case Done(v) => Done(Some(if m.escaped && !o.noEscape then Str(Escaped(env, v)) else Kept(v)))
       case Thrown => Thrown)
    case Block(head, program, inverse) =>
      (match MustacheValue(o, env, s, head, ctxs, last)
       case Done(v) =>
         if IsBlockValue(o, env, head) then
           match env.blockHelperMissing(ContextAt(ctxs, 0), [v], map[], BodiesOf(o, env, s, ctxs))
           case Done(w) => Done(Some(Kept(w)))
           case Thrown => Thrown
         else Done(Some(Kept(v)))
       case Thrown => Thrown)
  }

  // The value of a block's head goes through blockHelperMissing unless a helper made it.
  predicate IsBlockValue(o: Options, env: Env, head: Mustache) {
    match Classify(o, head)
    case HelperKind => false
    case AmbiguousKind => Name(head) !in env.helpers
    case SimpleKind => true
  }

  predicate HasBody(s: Statement) { s.Block? && (s.program.Some? || s.inverse.Some?) }

  function MustacheValue(o: Options, env: Env, s: Statement, m: Mustache, ctxs: seq<Val>, last: nat): Outcome<Val>
    decreases s, 2
  {
    match Classify(o, m)
    case SimpleKind => PathValue(env, m.id, ctxs)
    case AmbiguousKind =>
      if Name(m) in env.helpers
      then env.helpers[Name(m)](ContextAt(ctxs, 0), [], map[], BodiesOf(o, env, s, ctxs))
      else FirstLookup(env, ContextAt(ctxs, m.id.depth), Name(m))
    case HelperKind =>
      match (ParamValues(env, m.params, ctxs), HashOf(env, m, ctxs))
      case (Done(args), Done(hash)) =>
        if Name(m) in env.helpers
        then env.helpers[Name(m)](ContextAt(ctxs, 0), args, hash, BodiesOf(o, env, s, ctxs))
        else if Name(m) in o.knownHelpers then Thrown    // calls undefined
        else
          (match FirstLookup(env, ContextAt(ctxs, LastOfHash(m, LastOfParams(m.params, last))), Name(m))
           case Done(v) =>
             if Truthy(v) then Thrown                    // a value is not a function
             else env.helperMissing(ContextAt(ctxs, 0), [Str(Name(m))] + args, hash, BodiesOf(o, env, s, ctxs))
           case Thrown => Thrown)
      case (_, _) => Thrown
  }

  // A body runs in the context the helper gives it, on top of the contexts around the
  // block; if the block lacks one of its two programs, that body returns the empty string.
  function BodiesOf(o: Options, env: Env, s: Statement, ctxs: seq<Val>): Bodies
    decreases s, 1
  {
    if HasBody(s) then Bodies(BodyOf(o, env, s.program, ctxs), BodyOf(o, env, s.inverse, ctxs)) else NoBodies
  }

  function BodyOf(o: Options, env: Env, q: Option<Program>, ctxs: seq<Val>): Val -> Outcome<Val>
    decreases q, 0
  {
    match q
    case None => (_ => Done(Str("")))
    case Some(p) => (ctx => Interp(o, env, p, [ctx] + ctxs))
  }
}
