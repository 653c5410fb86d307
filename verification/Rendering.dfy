// What a program returns against the text of its statements.  They agree for every
// program but one: the program that is a single comment returns undefined.
module Rendering {
  import opened Wrappers
  import opened Template
  import opened Opcodes

  // What a returned value adds to a string.
  function TextOf(env: Env, r: Outcome<Val>): Outcome<string> {
    match r
    case Done(v) => Done(ToText(env, v))
    case Thrown => Thrown
  }

  function RunText(env: Env, r: Run<Val>): Run<string> {
    match r
    case Halted(v) => Halted(ToText(env, v))
    case Returned(v) => Halted(ToText(env, v))
    case Exception => Exception
    case Stuck => Stuck
  }

  lemma OnlyStatement(o: Options, env: Env, s: Statement, ctxs: seq<Val>)
    ensures InterpStatements(o, env, [s], ctxs) == InterpStatement(o, env, s, ctxs, 0)
  {
    assert [s][..0] == [];
    assert InterpStatements(o, env, [], ctxs) == Done("");
    assert LastOfStatements(o, []) == 0;
    var r := InterpStatement(o, env, s, ctxs, 0);
    if r.Done? { assert "" + r.value == r.value; }
  }

  lemma ReturnsItsText(o: Options, env: Env, p: Program, ctxs: seq<Val>)
    requires p.statements != [Comment]
    ensures TextOf(env, Interp(o, env, p, ctxs)) == InterpStatements(o, env, p.statements, ctxs)
  {
    if |p.statements| == 1 {
      assert p.statements == [p.statements[0]];
      OnlyStatement(o, env, p.statements[0], ctxs);
    }
  }

  // An environment without helpers to speak of.
  function Plain(): Env {
    Env(map[], (_, _, _, _) => Done(Null), (_, _, _, _) => Done(Null), (_, _) => Undefined, _ => "")
  }

  // A program returns what its statements write, in every environment and in every stack
  // of contexts, if and only if it is not exactly one comment.
  lemma ReturnsItsTextIff(o: Options, p: Program)
    ensures (forall env, ctxs | EnvOk(env) ::
               TextOf(env, Interp(o, env, p, ctxs)) == InterpStatements(o, env, p.statements, ctxs))
       <==> p.statements != [Comment]
  {
    if p.statements == [Comment] {
      OnlyStatement(o, Plain(), Comment, []);
      assert EnvOk(Plain());
      assert TextOf(Plain(), Interp(o, Plain(), p, [])) == Done("undefined");
    } else {
      forall env, ctxs | EnvOk(env)
        ensures TextOf(env, Interp(o, env, p, ctxs)) == InterpStatements(o, env, p.statements, ctxs) {
        ReturnsItsText(o, env, p, ctxs);
      }
    }
  }

  // ---- each over a comment ----

  // The loop of the each helper over an array: ret = ret + fn(item).
  function Each(env: Env, fn: Val -> Outcome<Val>, items: seq<Val>): Outcome<string> {
    if |items| == 0 then Done("")
    else Concat(Each(env, fn, items[..|items| - 1]), TextOf(env, fn(items[|items| - 1])))
  }

  function Times(n: nat, text: string): string { if n == 0 then "" else Times(n - 1, text) + text }

  // The each helper, for arrays.
  function Looping(self: Val, args: seq<Val>, hash: map<string, Val>, bodies: Bodies): Outcome<Val> {
    if bodies.NoBodies? || |args| == 0 || !args[0].Arr? then Thrown
    else if |args[0].items| == 0 then bodies.inverse(self)
    else match Each(Plain(), bodies.fn, args[0].items)
         case Done(text) => Done(Str(text))
         case Thrown => Thrown
  }

  lemma {:induction false} EachAgrees(env: Env, f: Val -> Outcome<Val>, g: Val -> Outcome<Val>, items: seq<Val>)
    requires Agree(f, g)
    ensures Each(env, f, items) == Each(env, g, items)
  {
    if |items| > 0 { EachAgrees(env, f, g, items[..|items| - 1]); }
  }

  lemma LoopingCallsOnly()
    ensures CallsOnly(Looping)
  {
    forall self: Val, args: seq<Val>, hash: map<string, Val>, a: Bodies, b: Bodies | BodiesAgree(a, b)
      ensures Looping(self, args, hash, a) == Looping(self, args, hash, b) {
      if a.Bodies? && |args| > 0 && args[0].Arr? { EachAgrees(Plain(), a.fn, b.fn, args[0].items); }
    }
  }

  // `{{#each xs}}{{! c}}{{/each}}` writes "undefined" once for every item.
  lemma {:induction false} EachOverCommentPrints(o: Options, at: Env, env: Env, ctxs: seq<Val>, items: seq<Val>)
    ensures Each(at, BodyOf(o, env, Some(Program([Comment])), ctxs), items) == Done(Times(|items|, "undefined"))
  {
    if |items| > 0 { EachOverCommentPrints(o, at, env, ctxs, items[..|items| - 1]); }
  }

  // While over nothing at all it writes nothing.
  lemma {:induction false} EachOverNothingPrintsNothing(
    o: Options, at: Env, env: Env, ctxs: seq<Val>, items: seq<Val>)
    ensures Each(at, BodyOf(o, env, Some(Program([])), ctxs), items) == Done("")
  {
    if |items| > 0 {
      EachOverNothingPrintsNothing(o, at, env, ctxs, items[..|items| - 1]);
      var x := items[|items| - 1];
      assert InterpStatements(o, env, [], [x] + ctxs) == Done("");
      assert Interp(o, env, Program([]), [x] + ctxs) == Done(Str(""));
      assert "" + "" == "";
    }
  }
}
