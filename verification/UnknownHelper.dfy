// A call of a helper nobody registered falls back to a property of a context.  The
// context is not the current one but that of the path compiled last: of the parameters
// and hash of the call, or, when they have no path, of an earlier statement.
module UnknownHelper {
  import opened Wrappers
  import opened Template
  import opened CompilerCorrect
  import opened Rendering

  // The call with the fallback looked up in the current context.
  function FromCurrentContext(o: Options, env: Env, s: Statement, m: Mustache, ctxs: seq<Val>): Outcome<Val> {
    match (ParamValues(env, m.params, ctxs), HashOf(env, m, ctxs))
    case (Done(args), Done(hash)) => CallValue(o, env, Call(s, None, None, ctxs), Name(m), args, hash, 0)
    case (_, _) => Thrown
  }

  function Fallback(m: Mustache, last: nat): nat { LastOfHash(m, LastOfParams(m.params, last)) }

  // ---- an environment in which contexts above the current one differ from it ----

  function Telling(): Env {
    Env(map[], (_, _, _, _) => Done(Null), (_, _, _, _) => Done(Null),
        (v, _) => if v == Num(0) then Undefined else Bool(true), _ => "")
  }

  function Contexts(n: nat): (ctxs: seq<Val>)
    ensures |ctxs| == n + 1 && ctxs[0] == Num(0) && forall k :: 0 < k <= n ==> ctxs[k] == Num(1)
  {
    if n == 0 then [Num(0)] else Contexts(n - 1) + [Num(1)]
  }

  function Deeper(p: Param, n: nat): (r: nat)
    ensures r >= n && (p.PathParam? ==> r >= p.id.depth)
  {
    if p.PathParam? && p.id.depth > n then p.id.depth else n
  }

  function Deepest(ps: seq<Param>): (r: nat)
    ensures forall p :: p in ps && p.PathParam? ==> r >= p.id.depth
  {
    if |ps| == 0 then 0 else Deeper(ps[0], Deepest(ps[1..]))
  }

  function DeepestPair(pairs: seq<(string, Param)>): (r: nat)
    ensures forall k :: 0 <= k < |pairs| && pairs[k].1.PathParam? ==> r >= pairs[k].1.id.depth
  {
    if |pairs| == 0 then 0 else Deeper(pairs[|pairs| - 1].1, DeepestPair(pairs[..|pairs| - 1]))
  }

  lemma ParamHasValue(p: Param, n: nat)
    requires p.PathParam? ==> n >= p.id.depth
    ensures ParamValue(Telling(), p, Contexts(n)).Done?
  {
    if p.PathParam? { assert ContextAt(Contexts(n), p.id.depth).Num?; }
  }

  lemma {:induction false} ParamsHaveValues(ps: seq<Param>, n: nat)
    requires forall p :: p in ps && p.PathParam? ==> n >= p.id.depth
    ensures ParamValues(Telling(), ps, Contexts(n)).Done?
  {
    if |ps| > 0 {
      ParamHasValue(ps[0], n);
      ParamsHaveValues(ps[1..], n);
    }
  }

  lemma {:induction false} PairsHaveValues(pairs: seq<(string, Param)>, n: nat)
    requires forall k :: 0 <= k < |pairs| && pairs[k].1.PathParam? ==> n >= pairs[k].1.id.depth
    ensures HashValues(Telling(), pairs, Contexts(n)).Done?
  {
    if |pairs| > 0 {
      ParamHasValue(pairs[|pairs| - 1].1, n);
      PairsHaveValues(pairs[..|pairs| - 1], n);
    }
  }

  function Enough(m: Mustache, last: nat): nat {
    Deepest(m.params) + (if m.hash.None? then 0 else DeepestPair(m.hash.value)) + Fallback(m, last)
  }

  lemma DifferentAbove(o: Options, s: Statement, m: Mustache, last: nat)
    requires Classify(o, m) == HelperKind && Name(m) !in o.knownHelpers && Fallback(m, last) != 0
    ensures MustacheValue(o, Telling(), s, m, Contexts(Enough(m, last)), last) == Thrown
    ensures FromCurrentContext(o, Telling(), s, m, Contexts(Enough(m, last))) == Done(Null)
  {
    var n := Enough(m, last);
    ParamsHaveValues(m.params, n);
    if m.hash.Some? { PairsHaveValues(m.hash.value, n); }
    assert ContextAt(Contexts(n), Fallback(m, last)) == Num(1);
    assert ContextAt(Contexts(n), 0) == Num(0);
  }

  // The call means what a lookup in the current context would give, in every environment
  // and every stack of contexts, exactly when the last path before it has no `../`.
  lemma FallbackIsCurrentIff(o: Options, s: Statement, m: Mustache, last: nat)
    requires Classify(o, m) == HelperKind && Name(m) !in o.knownHelpers
    ensures (forall env: Env, ctxs: seq<Val> ::
               MustacheValue(o, env, s, m, ctxs, last) == FromCurrentContext(o, env, s, m, ctxs))
       <==> Fallback(m, last) == 0
  {
    if Fallback(m, last) != 0 { DifferentAbove(o, s, m, last); }
  }

  function UpTo(x: string): Statement { Value(Mustache(Id(1, [x], false), [], None, false)) }

  function CallOf(foo: string): Statement { Value(Mustache(Id(0, [foo], true), [StringParam("a")], None, false)) }

  // `{{../x}}{{foo "a"}}` where foo is not registered, the current context has no foo, and
  // the enclosing one has: the call raises, although `{{foo "a"}}{{../x}}` reaches
  // helperMissing.  The order of two independent statements decides.
  lemma EarlierStatementDecides(env: Env, x: string, foo: string, outer: Val, inner: Val)
    requires env.helpers == map[] && inner != Undefined && inner != Null && outer != Undefined && outer != Null
    requires Truthy(env.property(outer, foo)) && !Truthy(env.property(inner, foo))
    requires env.helperMissing(inner, [Str(foo), Str("a")], map[], NoBodies).Done?
    requires x != ""
    ensures Interp(Options({}, false, false), env, Program([UpTo(x), CallOf(foo)]), [inner, outer]) == Thrown
    ensures Interp(Options({}, false, false), env, Program([CallOf(foo), UpTo(x)]), [inner, outer]).Done?
  {
    var o, ctxs := Options({}, false, false), [inner, outer];
    OneThenOther(o, env, UpTo(x), CallOf(foo), ctxs);
    OneThenOther(o, env, CallOf(foo), UpTo(x), ctxs);
    var m := CallOf(foo).m;
    assert m.params[1..] == [];
    assert ParamValues(env, [], ctxs) == Done([]);
    assert ParamValue(env, m.params[0], ctxs) == Done(Str("a"));
    assert [Str("a")] + [] == [Str("a")];
    assert ParamValues(env, m.params, ctxs) == Done([Str("a")]);
    assert LastOfParams([], 1) == 1 && LastOfParams([], 0) == 0;
    assert [Str(foo)] + [Str("a")] == [Str(foo), Str("a")];
    assert MustacheValue(o, env, CallOf(foo), m, ctxs, 1) == Thrown;
    assert MustacheValue(o, env, CallOf(foo), m, ctxs, 0).Done?;
    assert MustacheValue(o, env, UpTo(x), UpTo(x).m, ctxs, 0).Done?;
  }

  lemma OneThenOther(o: Options, env: Env, a: Statement, b: Statement, ctxs: seq<Val>)
    ensures InterpStatements(o, env, [a, b], ctxs)
         == Concat(InterpStatement(o, env, a, ctxs, 0), InterpStatement(o, env, b, ctxs, LastOfStatement(o, a, 0)))
  {
    assert [a, b][..1] == [a];
    OnlyStatement(o, env, a, ctxs);
    assert [a][..0] == [];
    assert LastOfStatements(o, [a]) == LastOfStatement(o, a, 0);
  }
}
