/** From source text to the meaning of compiled functions: the lexer, the parser and the code generator together. */
module Pipeline {
  import opened Ast
  import opened Semantics
  import opened Ir
  import opened Lexicon
  import opened LexSpec
  import opened LexRoundTrip
  import opened ParseSpec
  import opened Grammar
  import opened SourceText
  import opened CodegenSpec
  import opened CodegenScope
  import opened CodegenCorrect

  /** A program as the parser sees it. */
  function DefNodes(defs: seq<Def>): seq<Node> {
    seq(|defs|, i requires 0 <= i < |defs| => FuncDef(defs[i].proto, defs[i].body))
  }

  /** A run of the compiled function returns exactly what evaluating its source gives. */
  ghost predicate SameMeaning(ops: FloatOps, defs: seq<Def>, m: Module, name: string, args: seq<Double>) {
    forall d :: Returns(ops, m, name, args, d) <==> EvaluatesTo(ops, defs, name, args, d)
  }

  /**
   * Any text that spells a well-scoped program, with any white space, optional commas and parentheses, is
   * parsed to that program and compiled to a module in which each function means what its source means.
   */
  lemma TextToMeaning(stmts: seq<Cst>, items: seq<Item>, tail: string, defs: seq<Def>)
    requires IsBlock(stmts) && Written(items) && Blank(tail) && ToksOf(items) == YieldStmts(stmts, [])
    requires Trees(stmts) == DefNodes(defs) && CompilableProgram(defs) && WellScoped(defs)
    ensures Program(Tokens(Render(items) + tail, 0)) == (Block(DefNodes(defs)), Live([], false))
    ensures GenProgram(defs).Some?
    ensures forall ops, name, args |
      FindDef(defs, name).Some? && |FindDef(defs, name).value.proto.params| == |args| ::
        SameMeaning(ops, defs, GenProgram(defs).value, name, args)
  {
    hide Written, Render, ToksOf, YieldStmts, IsBlock, Compilable, WellScoped, GenProgram, SameMeaning, DefNodes, Program, Tokens, Trees;
    ParsingText(stmts, items, tail);
    GenProgramSucceeds(defs);
    forall ops, name, args | FindDef(defs, name).Some? && |FindDef(defs, name).value.proto.params| == |args|
      ensures SameMeaning(ops, defs, GenProgram(defs).value, name, args)
    {
      MeansSame(ops, defs, name, args);
    }
  }

  lemma MeansSame(ops: FloatOps, defs: seq<Def>, name: string, args: seq<Double>)
    requires CompilableProgram(defs) && GenProgram(defs).Some?
    requires FindDef(defs, name).Some? && |FindDef(defs, name).value.proto.params| == |args|
    ensures SameMeaning(ops, defs, GenProgram(defs).value, name, args)
  {
    hide Returns, EvaluatesTo, GenProgram;
    forall d ensures Returns(ops, GenProgram(defs).value, name, args, d) <==> EvaluatesTo(ops, defs, name, args, d) {
      CompilerCorrect(ops, defs, name, args, d);
    }
  }
}
