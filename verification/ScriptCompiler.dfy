// Handlebars.JavaScriptCompiler's treatment of nested programs as it is written: a context
// shared by all its compilers, whose arrays grow as functions are generated.
module ScriptCompiler {
  import opened Wrappers
  import opened Template
  import opened Opcodes
  import opened Emit
  import opened CompilerCorrect
  import opened ProgramSharing
  import opened Linking
  import opened LinkedTemplates
  import opened CompilerState
  import opened TemplateCompiler

  class Context {
    var table: seq<Slot>   // programs and environments, which are filled at the same places

    constructor ()
      ensures table == []
    {
      table := [];
    }

    // The first function generated for a program with equal code.
    method MatchExistingProgram(child: Compiled) returns (r: Option<nat>)
      ensures r.Some? ==> r.value < |table| && table[r.value].Made? && Equals(table[r.value].environment, child)
      ensures forall i :: 0 <= i < (if r.Some? then r.value else |table|) && table[i].Made?
                ==> !Equals(table[i].environment, child)
    {
      var i := 0;
      while i < |table|
        invariant 0 <= i <= |table|
        invariant forall j :: 0 <= j < i && table[j].Made? ==> !Equals(table[j].environment, child)
      {
        if table[i].Made? && Equals(table[i].environment, child) { return Some(i); }
        i := i + 1;
      }
      r := None;
    }

    // A nested program gets the function of an earlier one, or its own.
    method CompileChild(child: Compiled) returns (index: nat, code: Compiled)
      modifies this
      ensures Linked(index, code, table) == LinkOne(child, old(table))
      decreases child, 1
    {
      var found := MatchExistingProgram(child);
      FirstMatch(table, child, 0, found);
      if found.Some? { return found.value, table[found.value].code; }
      table := table + [Empty];
      index := |table|;
      var indices, codes := CompileChildren(child.children);
      code := child.(children := codes);
      table := Assign(table, index, Made(child, code));
    }

    method CompileChildren(children: seq<Compiled>) returns (indices: seq<nat>, codes: seq<Compiled>)
      modifies this
      ensures LinkedAll(indices, codes, table) == LinkAll(children, old(table))
      decreases children, 0
    {
      ghost var start := table;
      indices, codes := [], [];
      var i := 0;
      while i < |children|
        invariant 0 <= i <= |children|
        invariant LinkedAll(indices, codes, table) == LinkAll(children[..i], start)
      {
        var index, code := CompileChild(children[i]);
        assert children[..i + 1][..i] == children[..i];
        indices, codes := indices + [index], codes + [code];
        i := i + 1;
      }
      assert children[..i] == children;
    }
  }

  // The loop finds what the search from a place on finds.
  lemma {:induction false} FirstMatch(t: seq<Slot>, child: Compiled, from: nat, r: Option<nat>)
    requires from <= |t| && (r.Some? ==> from <= r.value < |t|)
    requires r.Some? ==> t[r.value].Made? && Equals(t[r.value].environment, child)
    requires forall i :: from <= i < (if r.Some? then r.value else |t|) && t[i].Made?
               ==> !Equals(t[i].environment, child)
    ensures Match(t, child, from) == r
    decreases |t| - from
  {
    if from < |t| && r != Some(from) { FirstMatch(t, child, from + 1, r); }
  }

  // Handlebars.compile: the compiler object refuses exactly the templates with a helper it
  // may not count on.  The script it produces for any other renders every context as the
  // tree walk does, in every environment, provided that any two nested programs with equal
  // code may stand for each other.
  method Compile(p: Program, known: map<string, bool>, knownHelpersOnly: bool, noEscape: bool)
    returns (c: Option<Compiled>)
    requires WellFormed(p)
    ensures c.Some? <==> Accepted(Effective(Merged(known), knownHelpersOnly, noEscape), p)
    ensures c.Some? ==> c.value == Link(CompileProgram(Effective(Merged(known), knownHelpersOnly, noEscape), p))
    ensures c.Some? && Sharable(CompileProgram(Effective(Merged(known), knownHelpersOnly, noEscape), p)) ==>
              forall env, ctx | EnvOk(env) ::
                RunTemplate(c.value, env, ctx)
                == Lift(Interp(Effective(Merged(known), knownHelpersOnly, noEscape), env, p, [ctx]))
  {
    MergedTwice(known);
    var compiler := new Compiler(known, knownHelpersOnly, noEscape);
    var result, ok := compiler.Statements(p);
    if !ok { return None; }
    var context := new Context();
    var indices, codes := context.CompileChildren(result.children);
    ghost var o := Effective(Merged(known), knownHelpersOnly, noEscape);
    if Sharable(CompileProgram(o, p)) {
      forall env, ctx | EnvOk(env) ensures RunTemplate(Link(result), env, ctx) == Lift(Interp(o, env, p, [ctx])) {
        ScriptRun(o, env, p, result, ctx);
      }
    }
    c := Some(result.(children := codes));
  }
}
