/**
 * Code generation succeeds exactly on the well-scoped programs, whatever order the parameters of
 * earlier functions were put into the symbol table: none of them leaks into a later function.
 */
module CodegenScope {
  import opened Wrappers
  import opened Ast
  import opened Ir
  import opened CodegenSpec
  import opened CodegenCorrect

  /** Every variable is in `vars`, and every call has a known callee and the right arity. */
  predicate Scoped(vars: set<string>, arities: map<string, nat>, n: Node) {
    match n
    case Null => false
    case Dbl(_) => true
    case Var(x) => x in vars
    case Bin(_, left, right) => Scoped(vars, arities, left) && Scoped(vars, arities, right)
    case Call(f, args) =>
      f in arities && arities[f] == |args| && forall i | 0 <= i < |args| :: Scoped(vars, arities, args[i])
    case If(cond, thenBlock, elseBlock) =>
      Scoped(vars, arities, cond) && Scoped(vars, arities, thenBlock) && Scoped(vars, arities, elseBlock)
    case Block(stmts) => forall i | 0 <= i < |stmts| :: Scoped(vars, arities, stmts[i])
    case FuncDef(_, _) => false
  }

  function Arities(defs: seq<Def>): (r: map<string, nat>) {
    if |defs| == 0 then map[]
    else
      var k := |defs| - 1;
      Arities(defs[..k])[defs[k].proto.name := |defs[k].proto.params|]
  }

  function ParamSet(p: Proto): set<string> {
    set i | 0 <= i < |p.params| :: p.params[i]
  }

  /** The name is new, and the body sees its own parameters, the functions before it, and itself. */
  predicate ScopedDef(earlier: seq<Def>, d: Def) {
    d.proto.name !in Arities(earlier) && Scoped(ParamSet(d.proto), Arities(earlier + [d]), d.body)
  }

  predicate WellScoped(defs: seq<Def>) {
    forall k | 0 <= k < |defs| :: ScopedDef(defs[..k], defs[k])
  }

  /** The list of signatures and the table of arities know the same functions. */
  ghost predicate SameFunctions(sigs: seq<Signature>, arities: map<string, nat>) {
    forall f :: ArityOf(sigs, f) == if f in arities then Some(arities[f]) else None
  }

  lemma {:induction false} GenSucceeds(c: Context, arities: map<string, nat>, e: Node, st: FnState)
    requires Compilable(e) && st.Valid() && SameFunctions(c.sigs, arities)
    ensures Gen(c, e, st).0.Some? <==> Scoped(c.named.Keys, arities, e)
    decreases e, 1
  {
    hide SameFunctions, EmitBin, OpenIf;
    match e
    case Dbl(_) =>
    case Var(_) =>
    case Bin(_, left, right) =>
      GenSucceeds(c, arities, left, st);
      GenSucceeds(c, arities, right, Gen(c, left, st).1);
    case Call(f, args) =>
      SameArity(c.sigs, arities, f);
      GenSeqSucceeds(c, arities, args, st);
    case Block(stmts) => GenSeqSucceeds(c, arities, stmts, st);
    case If(_, _, _) => GenIfSucceeds(c, arities, e, st);
  }

  lemma SameArity(sigs: seq<Signature>, arities: map<string, nat>, f: string)
    requires SameFunctions(sigs, arities)
    ensures ArityOf(sigs, f) == if f in arities then Some(arities[f]) else None
  {}

  lemma {:induction false} GenIfSucceeds(c: Context, arities: map<string, nat>, e: Node, st: FnState)
    requires e.If? && Compilable(e) && st.Valid() && SameFunctions(c.sigs, arities)
    ensures Gen(c, e, st).0.Some? <==>
      Scoped(c.named.Keys, arities, e.cond) && Scoped(c.named.Keys, arities, e.thenBlock)
      && Scoped(c.named.Keys, arities, e.elseBlock)
    decreases e, 0
  {
    hide SameFunctions, Scoped;
    GenSucceeds(c, arities, e.cond, st);
    var (cv, st1) := Gen(c, e.cond, st);
    if cv.Some? {
      var st2 := OpenIf(cv.value, st1);
      GenSucceeds(c, arities, e.thenBlock, st2);
      var (tv, st3) := Gen(c, e.thenBlock, st2);
      if tv.Some? {
        GenSucceeds(c, arities, e.elseBlock, st3.Append(Br(|st1.blocks| + 2)).PositionAt(|st1.blocks| + 1));
      }
    }
  }

  lemma {:induction false} GenSeqSucceeds(c: Context, arities: map<string, nat>, es: seq<Node>, st: FnState)
    requires forall i | 0 <= i < |es| :: Compilable(es[i])
    requires st.Valid() && SameFunctions(c.sigs, arities)
    ensures GenSeq(c, es, st).0.Some? <==> forall i | 0 <= i < |es| :: Scoped(c.named.Keys, arities, es[i])
    decreases es, 0
  {
    if |es| > 0 {
      var k := |es| - 1;
      GenSeqSucceeds(c, arities, es[..k], st);
      GenSucceeds(c, arities, es[k], GenSeq(c, es[..k], st).1);
      assert forall i | 0 <= i < k :: es[..k][i] == es[i];
    }
  }

  lemma {:induction false} BindParamsKeys(p: Proto, k: nat)
    requires k <= |p.params|
    ensures BindParams(p.params[..k]).Keys == set i | 0 <= i < k :: p.params[i]
  {
    if k > 0 {
      BindParamsKeys(p, k - 1);
      assert p.params[..k][..k - 1] == p.params[..k - 1];
    }
  }

  /** The functions of the module are those of the program. */
  ghost predicate ModuleOf(m: Module, defs: seq<Def>) {
    Bodied(m) && SameFunctions(Signatures(m), Arities(defs))
  }

  /** One more definition compiles exactly when its name is new and its body is well scoped. */
  lemma GenFuncSucceeds(m: Module, defs: seq<Def>, d: Def)
    requires Compilable(d.body) && ModuleOf(m, defs)
    ensures GenFunc(m, d).Some? <==>
      d.proto.name !in Arities(defs) && Scoped(ParamSet(d.proto), Arities(defs + [d]), d.body)
    ensures GenFunc(m, d).Some? ==> ModuleOf(GenFunc(m, d).value, defs + [d])
  {
    ArityOfSignatures(m, d.proto.name);
    if d.proto.name !in Arities(defs) {
      var m1 := m + [Function(d.proto.name, |d.proto.params|, [])];
      assert (defs + [d])[..|defs|] == defs;
      forall g: Function, f: string | g.name == d.proto.name && g.arity == |d.proto.params|
        ensures ArityOf(Signatures(m + [g]), f) == if f in Arities(defs + [d]) then Some(Arities(defs + [d])[f]) else None
      {
        ArityOfSignatures(m, f);
        ArityOfSignatures(m + [g], f);
        FindFunctionSnoc(m, g, f);
      }
      assert SameFunctions(Signatures(m1), Arities(defs + [d]));
      var c := Context(BindParams(d.proto.params), Signatures(m1));
      BindParamsKeys(d.proto, |d.proto.params|);
      assert d.proto.params[..|d.proto.params|] == d.proto.params;
      GenSucceeds(c, Arities(defs + [d]), d.body, ENTRY);
      if GenFunc(m, d).Some? {
        GenFuncAppends(m, d);
      }
    }
  }

  lemma WellScopedSnoc(defs: seq<Def>, d: Def)
    ensures WellScoped(defs + [d]) <==> WellScoped(defs) && ScopedDef(defs, d)
  {
    hide ScopedDef;
    var all := defs + [d];
    assert all[..|defs|] == defs && all[|defs|] == d;
    if WellScoped(all) {
      forall k | 0 <= k < |defs| ensures ScopedDef(defs[..k], defs[k]) {
        assert all[..k] == defs[..k] && ScopedDef(all[..k], all[k]);
      }
    }
    if WellScoped(defs) && ScopedDef(defs, d) {
      forall k | 0 <= k < |all| ensures ScopedDef(all[..k], all[k]) {
        assert k < |defs| ==> all[..k] == defs[..k] && ScopedDef(defs[..k], defs[k]);
      }
    }
  }

  lemma {:induction false} GenProgramUpTo(defs: seq<Def>)
    requires forall i | 0 <= i < |defs| :: Compilable(defs[i].body)
    ensures GenProgram(defs).Some? <==> WellScoped(defs)
    ensures GenProgram(defs).Some? ==> ModuleOf(GenProgram(defs).value, defs)
  {
    hide ModuleOf, WellScoped;
    if |defs| == 0 {
      NothingWellScoped();
      assert defs == [];
    } else {
      var k := |defs| - 1;
      GenProgramUpTo(defs[..k]);
      WellScopedSnoc(defs[..k], defs[k]);
      assert defs[..k] + [defs[k]] == defs;
      if GenProgram(defs[..k]).Some? {
        GenFuncSucceeds(GenProgram(defs[..k]).value, defs[..k], defs[k]);
      }
    }
  }

  lemma NothingWellScoped()
    ensures WellScoped([]) && ModuleOf([], [])
  {
    assert Signatures([]) == [];
  }

  /** The whole-program statement: a module comes out if and only if the program is well scoped. */
  lemma GenProgramSucceeds(defs: seq<Def>)
    requires CompilableProgram(defs)
    ensures GenProgram(defs).Some? <==> WellScoped(defs)
  {
    GenProgramUpTo(defs);
  }
}
