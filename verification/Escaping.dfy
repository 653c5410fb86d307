// What the browser reads of what a template wrote: a separate reader of the six entities,
// and what each kind of value turns into.
module Escaping {
  import opened Wrappers
  import opened Template
  import opened Opcodes
  import opened Emit
  import opened CompilerCorrect
  import opened Rendering

  // ---- reading entities ----

  // The character the entity at the start of a text stands for, and the entity's length.
  function EntityAt(s: string): Option<(char, nat)> {
    if "&amp;" <= s then Some(('&', 5))
    else if "&lt;" <= s then Some(('<', 4))
    else if "&gt;" <= s then Some(('>', 4))
    else if "&quot;" <= s then Some(('"', 6))
    else if "&#x27;" <= s then Some(('\'', 6))
    else if "&#x60;" <= s then Some(('`', 6))
    else None
  }

  lemma EntityLength(s: string)
    ensures EntityAt(s).Some? ==> 0 < EntityAt(s).value.1 <= |s|
  {
  }

  // None if an ampersand does not begin one of the six entities.
  function Unescape(s: string): Option<string>
    decreases |s|
  {
    if |s| == 0 then Some("")
    else if s[0] != '&' then
      (match Unescape(s[1..])
       case Some(rest) => Some([s[0]] + rest)
       case None => None)
    else
      (EntityLength(s);
       match EntityAt(s)
       case None => None
       case Some((c, n)) =>
         match Unescape(s[n..])
         case Some(rest) => Some([c] + rest)
         case None => None)
  }

  predicate Special(c: char) { c == '<' || c == '>' || c == '"' || c == '\'' || c == '`' }

  // One escaped character before a text.
  lemma ReadOne(c: char, text: string)
    requires Unescape(text).Some?
    ensures Unescape(EscapeChar(c) + text) == Some([c] + Unescape(text).value)
    ensures EscapeChar(c)[0] == '&' ==> EntityAt(EscapeChar(c) + text).Some?
  {
    var e := EscapeChar(c);
    var s := e + text;
    assert s[..|e|] == e && s[|e|..] == text;
    if s[0] == '&' {
      assert e <= s;
      EntityIs(c, s);
    }
  }

  lemma EntityIs(c: char, s: string)
    requires EscapeChar(c) <= s && EscapeChar(c)[0] == '&'
    ensures EntityAt(s) == Some((c, |EscapeChar(c)|))
  {
    if |s| > 3 { assert s[1] == EscapeChar(c)[1] && s[2] == EscapeChar(c)[2] && s[3] == EscapeChar(c)[3]; }
    if |EscapeChar(c)| == 6 { assert s[4] == EscapeChar(c)[4]; }
  }

  // Escaping loses nothing: the browser reads the text back.
  lemma {:induction false} UnescapeEscape(s: string)
    ensures Unescape(EscapeText(s)) == Some(s)
  {
    if |s| > 0 {
      UnescapeEscape(s[1..]);
      ReadOne(s[0], EscapeText(s[1..]));
      assert s == [s[0]] + s[1..];
    }
  }

  lemma NoneSpecial(c: char)
    ensures forall k :: 0 <= k < |EscapeChar(c)| ==> !Special(EscapeChar(c)[k])
    ensures |EscapeChar(c)| > 0 && forall k :: 0 < k < |EscapeChar(c)| ==> EscapeChar(c)[k] != '&'
  {
  }

  // In an escaped text no character is special to HTML, and every ampersand begins one of
  // the six entities.
  lemma {:induction false} EscapedIsSafe(s: string, k: nat)
    requires k < |EscapeText(s)|
    ensures !Special(EscapeText(s)[k])
    ensures EscapeText(s)[k] == '&' ==> EntityAt(EscapeText(s)[k..]).Some?
  {
    var e, rest := EscapeChar(s[0]), EscapeText(s[1..]);
    NoneSpecial(s[0]);
    if k < |e| {
      UnescapeEscape(s[1..]);
      ReadOne(s[0], rest);
      if k == 0 { assert EscapeText(s)[0..] == e + rest; }
    } else {
      EscapedIsSafe(s[1..], k - |e|);
      assert (e + rest)[k..] == rest[k - |e|..];
    }
  }

  // ---- what values turn into ----

  // {{name}}, or {{{name}}} if it is not escaped
  function Show(name: string, escaped: bool): Program {
    Program([Value(Mustache(Id(0, [name], true), [], None, escaped))])
  }

  // A name the template looks up: no helper has it.
  ghost predicate IsProperty(o: Options, env: Env, name: string, ctx: Val, v: Val) {
    && EnvOk(env) && name !in env.helpers && name !in o.knownHelpers && name != ""
    && ctx != Undefined && ctx != Null && env.property(ctx, name) == v
  }

  lemma {:induction false} ShowRuns(o: Options, env: Env, name: string, escaped: bool, ctx: Val, v: Val)
    requires IsProperty(o, env, name, ctx, v)
    ensures RunTemplate(CompileProgram(o, Show(name, escaped)), env, ctx)
         == Halted(if escaped && !o.noEscape then Str(Escaped(env, v)) else Kept(v))
  {
    var p, id := Show(name, escaped), Id(0, [name], true);
    var s := p.statements[0];
    TemplateRun(o, env, p, CompileProgram(o, p), ctx);
    assert id.parts[1..] == [] && LaterLookups(env, v, []) == v;
    assert FirstLookup(env, ContextAt([ctx], 0), name) == Done(v);
    assert PathValue(env, id, [ctx]) == Done(v);
    assert MustacheValue(o, env, s, s.m, [ctx], 0) == Done(v);
    OneValue(o, env, s, [ctx]);
  }

  lemma {:induction false} OneValue(o: Options, env: Env, s: Statement, ctxs: seq<Val>)
    requires s.Value?
    ensures var r := MustacheValue(o, env, s, s.m, ctxs, 0);
      Interp(o, env, Program([s]), ctxs)
      == if r.Thrown? then Thrown
         else Done(if s.m.escaped && !o.noEscape then Str(Escaped(env, r.value)) else Kept(r.value))
  {
    var p := Program([s]);
    assert |p.statements| == 1 && p.statements[0] == s;
    assert Interp(o, env, p, ctxs) == match StatementValue(o, env, s, ctxs, 0)
                                      case Done(Some(v)) => Done(v)
                                      case Done(None) => Done(Undefined)
                                      case Thrown => Thrown;
  }

  // What {{name}} writes, for every kind of value.
  lemma EscapedValueText(o: Options, env: Env, name: string, ctx: Val, v: Val) returns (text: string)
    requires IsProperty(o, env, name, ctx, v) && !o.noEscape
    ensures RunTemplate(CompileProgram(o, Show(name, true)), env, ctx) == Halted(Str(text))
    ensures v == Undefined || v == Null || v == Bool(false) ==> text == ""
    ensures v == Bool(true) ==> text == "true"
    ensures v.Safe? ==> text == v.html
    ensures v.Str? ==> Unescape(text) == Some(v.s)
    ensures v.Num? || v.Arr? || v.Obj? ==> Unescape(text) == Some(env.toText(v))
    ensures !v.Safe? ==> forall k :: 0 <= k < |text| ==> !Special(text[k])
  {
    ShowRuns(o, env, name, true, ctx, v);
    text := Escaped(env, v);
    if v == Bool(true) { TrueIsPlain(); }
    if !v.Safe? && text != "" {
      UnescapeEscape(ToText(env, v));
      forall k | 0 <= k < |text| ensures !Special(text[k]) { EscapedIsSafe(ToText(env, v), k); }
    }
  }

  lemma TrueIsPlain()
    ensures EscapeText("true") == "true"
  {
    assert "true"[1..] == "rue" && "rue"[1..] == "ue" && "ue"[1..] == "e" && "e"[1..] == "";
    assert EscapeText("e") == "e" && EscapeText("ue") == "ue" && EscapeText("rue") == "rue";
  }

  // What {{{name}}} writes: zero and true are written, what else counts as false is not.
  lemma RawValueText(o: Options, env: Env, name: string, ctx: Val, v: Val) returns (text: string)
    requires IsProperty(o, env, name, ctx, v)
    ensures RunText(env, RunTemplate(CompileProgram(o, Show(name, false)), env, ctx)) == Halted(text)
    ensures v == Undefined || v == Null || v == Bool(false) ==> text == ""
    ensures v == Bool(true) ==> text == "true"
    ensures v.Safe? ==> text == v.html
    ensures v.Str? ==> text == v.s
    ensures v.Num? || v.Arr? || v.Obj? ==> text == env.toText(v)
  {
    ShowRuns(o, env, name, false, ctx, v);
    text := ToText(env, Kept(v));
  }

  // ---- paths of two names ----

  // {{{a.b}}}: null, undefined and false pass through, anything else is asked for b.
  lemma {:induction false} PathOfTwo(o: Options, env: Env, a: string, b: string, ctx: Val, v: Val)
    requires IsProperty(o, env, a, ctx, v)
    ensures var p := Program([Value(Mustache(Id(0, [a, b], false), [], None, false))]);
      RunText(env, RunTemplate(CompileProgram(o, p), env, ctx))
      == Halted(if v == Undefined || v == Null || v == Bool(false) then ""
                else ToText(env, Kept(env.property(v, b))))
  {
    var id := Id(0, [a, b], false);
    var p := Program([Value(Mustache(id, [], None, false))]);
    TemplateRun(o, env, p, CompileProgram(o, p), ctx);
    assert id.parts[1..] == [b] && [b][..0] == [];
    assert LaterLookups(env, v, []) == v;
    assert LaterLookups(env, v, [b]) == LaterLookup(env, v, b);
    assert PathValue(env, id, [ctx]) == Done(LaterLookup(env, v, b));
    OneValue(o, env, p.statements[0], [ctx]);
  }

  // A name looked up in null or undefined raises.
  lemma {:induction false} NothingInNull(o: Options, env: Env, name: string, escaped: bool, ctx: Val)
    requires EnvOk(env) && name !in env.helpers && name !in o.knownHelpers && name != ""
    requires ctx == Undefined || ctx == Null
    ensures RunTemplate(CompileProgram(o, Show(name, escaped)), env, ctx) == Exception
  {
    var p := Show(name, escaped);
    TemplateRun(o, env, p, CompileProgram(o, p), ctx);
    assert FirstLookup(env, ContextAt([ctx], 0), name) == Thrown;
    OneValue(o, env, p.statements[0], [ctx]);
  }
}

// The arguments of a call, told from its parameters and pairs.
module Arguments {
  import opened Wrappers
  import opened Template

  // One value for each parameter, in order; or an exception if any of them raises.
  lemma {:induction false} ParamsAre(env: Env, ps: seq<Param>, ctxs: seq<Val>)
    ensures var r := ParamValues(env, ps, ctxs);
      && (r.Thrown? <==> exists k :: 0 <= k < |ps| && ParamValue(env, ps[k], ctxs).Thrown?)
      && (r.Done? ==>
            |r.value| == |ps| && forall k :: 0 <= k < |ps| ==> ParamValue(env, ps[k], ctxs) == Done(r.value[k]))
  {
    if |ps| > 0 {
      ParamsAre(env, ps[1..], ctxs);
      if k :| 0 <= k < |ps[1..]| && ParamValue(env, ps[1..][k], ctxs).Thrown? {
        assert ps[k + 1] == ps[1..][k];
      }
      if k :| 0 <= k < |ps| && ParamValue(env, ps[k], ctxs).Thrown? {
        if k > 0 { assert ps[1..][k - 1] == ps[k]; }
      }
      forall k | 0 < k < |ps| ensures ps[k] == ps[1..][k - 1] { }
    }
  }

  // No later pair has the key of pair k.
  ghost predicate LastOf(pairs: seq<(string, Param)>, k: int) {
    0 <= k < |pairs| && forall j :: k < j < |pairs| ==> pairs[j].0 != pairs[k].0
  }

  // The hash has the keys of the pairs, and no other.
  lemma {:induction false} HashKeys(env: Env, pairs: seq<(string, Param)>, ctxs: seq<Val>, key: string)
    requires HashValues(env, pairs, ctxs).Done?
    ensures key in HashValues(env, pairs, ctxs).value <==> exists k :: 0 <= k < |pairs| && pairs[k].0 == key
  {
    if |pairs| > 0 {
      var n := |pairs| - 1;
      HashKeys(env, pairs[..n], ctxs, key);
      if k :| 0 <= k < |pairs[..n]| && pairs[..n][k].0 == key { assert pairs[k].0 == key; }
      if k :| 0 <= k < |pairs| && pairs[k].0 == key {
        if k < n { assert pairs[..n][k].0 == key; }
      }
    }
  }

  // Each key has the value of the last pair that has it.
  lemma {:induction false} HashIs(env: Env, pairs: seq<(string, Param)>, ctxs: seq<Val>, k: int)
    requires HashValues(env, pairs, ctxs).Done? && LastOf(pairs, k)
    ensures pairs[k].0 in HashValues(env, pairs, ctxs).value
    ensures ParamValue(env, pairs[k].1, ctxs) == Done(HashValues(env, pairs, ctxs).value[pairs[k].0])
  {
    var n := |pairs| - 1;
    if k < n {
      assert pairs[n].0 != pairs[k].0;
      forall j | k < j < n ensures pairs[..n][j].0 != pairs[..n][k].0 { assert pairs[j].0 != pairs[k].0; }
      HashIs(env, pairs[..n], ctxs, k);
    }
  }
}
