/**
 * Compiler correctness: running a compiled function returns a value exactly when evaluating the
 * tree gives that value, and the machine never gets stuck.
 */
module CodegenCorrect {
  import opened Wrappers
  import opened Ast
  import opened Semantics
  import opened Ir
  import opened CodegenSpec
  import opened CodegenShape

  // ---------- Modules that implement programs ----------

  /** Every function known by its signature is in the module with that arity. */
  ghost predicate Linked(m: Module, sigs: seq<Signature>) {
    forall g | ArityOf(sigs, g).Some? ::
      FindFunction(m, g).Some? && FindFunction(m, g).value.arity == ArityOf(sigs, g).value
  }

  lemma LinkedAt(m: Module, sigs: seq<Signature>, g: string)
    requires Linked(m, sigs) && ArityOf(sigs, g).Some?
    ensures FindFunction(m, g).Some? && FindFunction(m, g).value.arity == ArityOf(sigs, g).value
  {}

  ghost predicate CompiledAgainst(m: Module, d: Def, sigs: seq<Signature>) {
    && Compilable(d.body) && Linked(m, sigs)
    && GenBody(sigs, d).Some?
    && FindFunction(m, d.proto.name) == Some(Function(d.proto.name, |d.proto.params|, GenBody(sigs, d).value))
  }

  /** The module has a compiled body for every function of the program, and no others. */
  ghost predicate Implements(m: Module, defs: seq<Def>) {
    forall f :: FindFunction(m, f).Some? == FindDef(defs, f).Some?
      && (FindDef(defs, f).Some? ==> exists sigs :: CompiledAgainst(m, FindDef(defs, f).value, sigs))
  }

  lemma {:induction false} FindFunctionSnoc(m: Module, g: Function, f: string)
    ensures FindFunction(m + [g], f) ==
      if FindFunction(m, f).Some? then FindFunction(m, f) else if g.name == f then Some(g) else None
  {
    if |m| > 0 {
      assert (m + [g])[1..] == m[1..] + [g];
      FindFunctionSnoc(m[1..], g, f);
    } else {
      assert (m + [g])[1..] == [];
    }
  }

  lemma {:induction false} FindDefSnoc(defs: seq<Def>, d: Def, f: string)
    ensures FindDef(defs + [d], f) ==
      if FindDef(defs, f).Some? then FindDef(defs, f) else if d.proto.name == f then Some(d) else None
  {
    if |defs| > 0 {
      assert (defs + [d])[1..] == defs[1..] + [d];
      FindDefSnoc(defs[1..], d, f);
    } else {
      assert (defs + [d])[1..] == [];
    }
  }

  lemma {:induction false} FindDefName(defs: seq<Def>, f: string)
    requires FindDef(defs, f).Some?
    ensures FindDef(defs, f).value in defs && FindDef(defs, f).value.proto.name == f
  {
    if defs[0].proto.name != f {
      FindDefName(defs[1..], f);
    }
  }

  lemma {:induction false} ArityOfSignatures(m: Module, f: string)
    ensures ArityOf(Signatures(m), f) ==
      if FindFunction(m, f).Some? then Some(FindFunction(m, f).value.arity) else None
  {
    if |m| > 0 {
      assert Signatures(m)[1..] == Signatures(m[1..]);
      ArityOfSignatures(m[1..], f);
    }
  }

  lemma {:induction false} SetBlocksLast(m: Module, g: Function, blocks: seq<BasicBlock>)
    requires FindFunction(m, g.name).None?
    ensures SetBlocks(m + [g], g.name, blocks) == m + [g.(blocks := blocks)]
  {
    if |m| > 0 {
      assert (m + [g])[1..] == m[1..] + [g];
      SetBlocksLast(m[1..], g, blocks);
    }
  }

  /** Every function of a compiled program has a body. */
  predicate Bodied(m: Module) {
    forall i | 0 <= i < |m| :: |m[i].blocks| > 0
  }

  /** Compiling one more definition appends exactly one function, under a new name. */
  lemma GenFuncAppends(m: Module, d: Def)
    requires Compilable(d.body) && Bodied(m) && GenFunc(m, d).Some?
    ensures FindFunction(m, d.proto.name).None?
    ensures
      var sigs := Signatures(m + [Function(d.proto.name, |d.proto.params|, [])]);
      GenBody(sigs, d).Some? &&
      GenFunc(m, d).value == m + [Function(d.proto.name, |d.proto.params|, GenBody(sigs, d).value)]
    ensures Bodied(GenFunc(m, d).value)
  {
    var g := Function(d.proto.name, |d.proto.params|, []);
    var blocks := GenBody(Signatures(m + [g]), d).value;
    SetBlocksLast(m, g, blocks);
  }

  lemma {:induction false} GenProgramBodied(defs: seq<Def>)
    requires forall i | 0 <= i < |defs| :: Compilable(defs[i].body)
    requires GenProgram(defs).Some?
    ensures Bodied(GenProgram(defs).value)
  {
    if |defs| > 0 {
      var k := |defs| - 1;
      GenProgramBodied(defs[..k]);
      GenFuncAppends(GenProgram(defs[..k]).value, defs[k]);
    }
  }

  lemma LinkedSnoc(m: Module, g: Function, sigs: seq<Signature>)
    requires Linked(m, sigs)
    ensures Linked(m + [g], sigs)
  {
    forall f | ArityOf(sigs, f).Some?
      ensures FindFunction(m + [g], f) == FindFunction(m, f)
    {
      FindFunctionSnoc(m, g, f);
    }
  }

  /** The signatures a function is compiled against are those of the module it ends up in. */
  lemma LinkedAppended(m: Module, g0: Function, g: Function)
    requires g0.name == g.name && g0.arity == g.arity
    ensures Linked(m + [g], Signatures(m + [g0]))
  {
    forall h | ArityOf(Signatures(m + [g0]), h).Some?
      ensures FindFunction(m + [g], h).Some?
      ensures FindFunction(m + [g], h).value.arity == ArityOf(Signatures(m + [g0]), h).value
    {
      ArityOfSignatures(m + [g0], h);
      FindFunctionSnoc(m, g0, h);
      FindFunctionSnoc(m, g, h);
    }
  }

  lemma AppendedCompiled(m: Module, d: Def)
    requires Compilable(d.body) && FindFunction(m, d.proto.name).None?
    requires GenBody(Signatures(m + [Function(d.proto.name, |d.proto.params|, [])]), d).Some?
    ensures
      var sigs := Signatures(m + [Function(d.proto.name, |d.proto.params|, [])]);
      CompiledAgainst(m + [Function(d.proto.name, |d.proto.params|, GenBody(sigs, d).value)], d, sigs)
  {
    var g0 := Function(d.proto.name, |d.proto.params|, []);
    var sigs := Signatures(m + [g0]);
    var g := Function(d.proto.name, |d.proto.params|, GenBody(sigs, d).value);
    hide GenBody;
    LinkedAppended(m, g0, g);
    FindFunctionSnoc(m, g, d.proto.name);
  }

  lemma ImplementsNothing()
    ensures Implements([], [])
  {}

  lemma ImplementsSnoc(m: Module, defs: seq<Def>, d: Def, sigs: seq<Signature>, g: Function)
    requires Implements(m, defs) && FindFunction(m, d.proto.name).None?
    requires g.name == d.proto.name && CompiledAgainst(m + [g], d, sigs)
    ensures Implements(m + [g], defs + [d])
  {
    forall f
      ensures FindFunction(m + [g], f).Some? == FindDef(defs + [d], f).Some?
      ensures FindDef(defs + [d], f).Some? ==>
        exists sigs' :: CompiledAgainst(m + [g], FindDef(defs + [d], f).value, sigs')
    {
      FindFunctionSnoc(m, g, f);
      FindDefSnoc(defs, d, f);
      if FindDef(defs, f).Some? {
        var sigs' :| CompiledAgainst(m, FindDef(defs, f).value, sigs');
        LinkedSnoc(m, g, sigs');
        FindDefName(defs, f);
        assert CompiledAgainst(m + [g], FindDef(defs, f).value, sigs');
      }
    }
  }

  /** A compiled program implements its source, each function against those before it and itself. */
  lemma {:induction false} GenProgramImplements(defs: seq<Def>)
    requires forall i | 0 <= i < |defs| :: Compilable(defs[i].body)
    requires GenProgram(defs).Some?
    ensures Implements(GenProgram(defs).value, defs)
  {
    hide Implements, Linked, GenBody, CompiledAgainst;
    if |defs| == 0 {
      ImplementsNothing();
      assert defs == [];
    } else {
      var k := |defs| - 1;
      var d, m := defs[k], GenProgram(defs[..k]).value;
      GenProgramImplements(defs[..k]);
      GenProgramBodied(defs[..k]);
      GenFuncAppends(m, d);
      var sigs := Signatures(m + [Function(d.proto.name, |d.proto.params|, [])]);
      var g := Function(d.proto.name, |d.proto.params|, GenBody(sigs, d).value);
      AppendedCompiled(m, d);
      ImplementsSnoc(m, defs[..k], d, sigs, g);
      assert defs[..k] + [d] == defs;
    }
  }

  // ---------- Simulation of one tree ----------

  /** The frame has run all the code in `st`, and nothing else. */
  ghost predicate At(f: Frame, st: FnState) {
    && st.Valid() && Contains(f.fn.blocks, st.blocks)
    && f.blk == st.cur && f.pc == |st.blocks[st.cur]|
  }

  /** The symbol table names the parameters that hold the values of the environment. */
  ghost predicate EnvMatches(named: map<string, Value>, args: seq<Double>, env: map<string, Double>) {
    && named.Keys == env.Keys
    && forall x | x in named :: named[x].Param? && named[x].i < |args| && args[named[x].i] == env[x]
  }

  /** Same activation as before, with the registers of `st` untouched. */
  ghost predicate Keeps(f': Frame, f: Frame, st: FnState) {
    && f'.fn == f.fn && f'.args == f.args
    && forall k | k in f.regs && InRegion(st.blocks, k) :: k in f'.regs && f'.regs[k] == f.regs[k]
  }

  /**
   * `n` steps do what outcome `o` says: they get to the end of the new code with result
   * `v` holding the value, or they spend at least the fuel and are still running.
   */
  ghost predicate Simulates(ops: FloatOps, m: Module, f: Frame, callers: seq<Frame>, st: FnState,
                            o: Outcome<Double>, fuel: nat, v: Value, st': FnState, n: nat, f': Frame) {
    var s := Steps(ops, m, Running(f, callers), n);
    match o
    case Done(d) => s == Running(f', callers) && At(f', st') && Keeps(f', f, st) && f'.Real(ops, v) == Some(d)
    case Timeout => fuel <= n && s.Running?
    case Wrong => false
  }

  ghost predicate SimulatesSeq(ops: FloatOps, m: Module, f: Frame, callers: seq<Frame>, st: FnState,
                               o: Outcome<seq<Double>>, fuel: nat, vs: seq<Value>, st': FnState, n: nat, f': Frame) {
    var s := Steps(ops, m, Running(f, callers), n);
    match o
    case Done(ds) => s == Running(f', callers) && At(f', st') && Keeps(f', f, st) && Reals(ops, f', vs) == Some(ds)
    case Timeout => fuel <= n && s.Running?
    case Wrong => false
  }

  lemma RealKept(ops: FloatOps, f: Frame, f': Frame, st: FnState, v: Value)
    requires Keeps(f', f, st) && ValueIn(st.blocks, v) && f.Real(ops, v).Some?
    ensures f'.Real(ops, v) == f.Real(ops, v)
  {}

  lemma {:induction false} RealsKept(ops: FloatOps, f: Frame, f': Frame, st: FnState, vs: seq<Value>)
    requires Keeps(f', f, st) && ValuesIn(st.blocks, vs) && Reals(ops, f, vs).Some?
    ensures Reals(ops, f', vs) == Reals(ops, f, vs)
  {
    if |vs| > 0 {
      RealsKept(ops, f, f', st, vs[..|vs| - 1]);
      RealKept(ops, f, f', st, vs[|vs| - 1]);
    }
  }

  lemma {:induction false} RealsLast(ops: FloatOps, f: Frame, vs: seq<Value>)
    requires |vs| > 0 && Reals(ops, f, vs).Some?
    ensures f.Real(ops, vs[|vs| - 1]) == Some(Reals(ops, f, vs).value[|vs| - 1])
  {}

  lemma KeepsTrans(f2: Frame, f1: Frame, f: Frame, st1: FnState, st: FnState)
    requires Keeps(f2, f1, st1) && Keeps(f1, f, st) && Contains(st1.blocks, st.blocks)
    ensures Keeps(f2, f, st)
  {}

  lemma AfterDefine(ops: FloatOps, f: Frame, st: FnState, i: Instr, v: RtVal)
    requires At(f, st) && Contains(f.fn.blocks, st.Append(i).blocks)
    ensures At(f.Define(v), st.Append(i)) && Keeps(f.Define(v), f, st)
    ensures f.Define(v).Operand(ops, st.Next()) == Some(v)
  {}

  /** Running instruction `i`, which defines a register, from the end of `st`. */
  lemma DefineStep(ops: FloatOps, m: Module, f: Frame, callers: seq<Frame>, st: FnState, i: Instr, v: RtVal)
    requires At(f, st) && Contains(f.fn.blocks, st.Append(i).blocks)
    requires Step(ops, m, Running(f, callers)) == Running(f.Define(v), callers)
    ensures Steps(ops, m, Running(f, callers), 1) == Running(f.Define(v), callers)
    ensures At(f.Define(v), st.Append(i)) && Keeps(f.Define(v), f, st)
    ensures f.Define(v).Operand(ops, st.Next()) == Some(v)
  {
    AfterDefine(ops, f, st, i, v);
    OneStep(ops, m, Running(f, callers));
  }

  lemma OneStep(ops: FloatOps, m: Module, s: State)
    ensures Steps(ops, m, s, 1) == Step(ops, m, s)
  {
    assert Steps(ops, m, s, 1) == Steps(ops, m, Step(ops, m, s), 0);
  }

  lemma NextInstr(f: Frame, st: FnState, i: Instr)
    requires At(f, st) && Contains(f.fn.blocks, st.Append(i).blocks)
    ensures f.blk < |f.fn.blocks| && f.pc < |f.fn.blocks[f.blk]| && f.fn.blocks[f.blk][f.pc] == i
  {
    assert st.Append(i).blocks[st.cur] <= f.fn.blocks[st.cur];
    assert st.Append(i).blocks[st.cur][f.pc] == i;
  }

  lemma SimBin(ops: FloatOps, m: Module, op: BinOp, a: Value, b: Value, x: Double, y: Double,
               st: FnState, f: Frame, callers: seq<Frame>) returns (n: nat, f': Frame)
    requires At(f, st) && Contains(f.fn.blocks, EmitBin(op, a, b, st).1.blocks)
    requires f.Real(ops, a) == Some(x) && f.Real(ops, b) == Some(y)
    ensures var (v, st') := EmitBin(op, a, b, st);
      Simulates(ops, m, f, callers, st, Done(Apply(ops, op, x, y)), 0, v, st', n, f')
  {
    var i := BinInstr(op, a, b);
    var st1 := st.Append(i);
    assert Contains(f.fn.blocks, st1.blocks);
    NextInstr(f, st, i);
    if op != CmpLt {
      DefineStep(ops, m, f, callers, st, i, D(Apply(ops, op, x, y)));
      return 1, f.Define(D(Apply(ops, op, x, y)));
    }
    var r := B(ops.ult(x, y));
    DefineStep(ops, m, f, callers, st, i, r);
    var f1 := f.Define(r);
    var i2 := UIToFP(st.Next());
    NextInstr(f1, st1, i2);
    var r2 := D(FromBool(ops, ops.ult(x, y)));
    DefineStep(ops, m, f1, callers, st1, i2, r2);
    StepsAdd(ops, m, Running(f, callers), 1, 1);
    KeepsTrans(f1.Define(r2), f1, f, st1, st);
    return 2, f1.Define(r2);
  }

  /** From the end of the condition to the start of the arm it selects. */
  lemma SimOpenIf(ops: FloatOps, m: Module, cv: Value, x: Double, st: FnState, f: Frame, callers: seq<Frame>)
    returns (f': Frame)
    requires At(f, st) && Contains(f.fn.blocks, OpenIf(cv, st).blocks)
    requires f.Real(ops, cv) == Some(x)
    ensures Steps(ops, m, Running(f, callers), 2) == Running(f', callers)
    ensures f'.pc == 0 && f'.prev == st.cur && Keeps(f', f, st)
    ensures f'.blk == if ops.one(x, ops.lit(0)) then |st.blocks| else |st.blocks| + 1
  {
    OpenIfExtends(cv, st);
    var i := FCmp(ONE, cv, ConstReal(0));
    assert OpenIf(cv, st).blocks[st.cur] <= f.fn.blocks[st.cur];
    var r := B(ops.one(x, ops.lit(0)));
    assert f.fn.blocks[f.blk][f.pc] == OpenIf(cv, st).blocks[st.cur][f.pc] == i;
    assert Contains(f.fn.blocks, st.Append(i).blocks);
    DefineStep(ops, m, f, callers, st, i, r);
    var f1 := f.Define(r);
    assert f1.fn.blocks[f1.blk][f1.pc] == OpenIf(cv, st).blocks[st.cur][f1.pc];
    StepsAdd(ops, m, Running(f, callers), 1, 1);
    f' := f1.Jump(if ops.one(x, ops.lit(0)) then |st.blocks| else |st.blocks| + 1);
    assert Steps(ops, m, Running(f1, callers), 1) == Steps(ops, m, Step(ops, m, Running(f1, callers)), 0);
  }

  /** From the end of an arm, through its branch, into the merge block and past the phi. */
  lemma SimJoin(ops: FloatOps, m: Module, v: Value, x: Double, target: nat, phi: Instr, st: FnState, st6: FnState,
                f: Frame, callers: seq<Frame>) returns (f': Frame)
    requires At(f, st) && f.Real(ops, v) == Some(x)
    requires Contains(f.fn.blocks, st.Append(Br(target)).blocks)
    requires st6.Valid() && st6.cur == target && st6.blocks[target] == []
    requires Contains(f.fn.blocks, st6.Append(phi).blocks)
    requires phi.Phi? && Incoming(phi.incoming, st.cur) == Some(v)
    requires target < |st.blocks| ==> st.blocks[target] == []
    ensures Steps(ops, m, Running(f, callers), 2) == Running(f', callers)
    ensures At(f', st6.Append(phi)) && Keeps(f', f, st) && f'.Real(ops, st6.Next()) == Some(x)
  {
    NextInstr(f, st, Br(target));
    var f1 := f.Jump(target);
    assert Steps(ops, m, Running(f, callers), 1) == Steps(ops, m, Step(ops, m, Running(f, callers)), 0);
    StepsAdd(ops, m, Running(f, callers), 1, 1);
    assert At(f1, st6);
    NextInstr(f1, st6, phi);
    DefineStep(ops, m, f1, callers, st6, phi, D(x));
    f' := f1.Define(D(x));
  }

  lemma {:induction false} BindMatches(params: seq<string>, args: seq<Double>)
    requires |params| == |args|
    ensures EnvMatches(BindParams(params), args, Bind(params, args))
  {
    if |params| > 0 {
      var k := |params| - 1;
      BindMatches(params[..k], args[..k]);
    }
  }

  /** Everything a tree is compiled and run in. */
  ghost predicate Setting(defs: seq<Def>, m: Module, c: Context, args: seq<Double>, env: map<string, Double>) {
    Implements(m, defs) && Linked(m, c.sigs) && EnvMatches(c.named, args, env)
  }

  /** A run of `n1` steps followed by a simulation is a simulation. */
  lemma SimulatesAfter(ops: FloatOps, m: Module, f: Frame, callers: seq<Frame>, st: FnState, n1: nat, f1: Frame, st1: FnState,
                       o: Outcome<Double>, fuel: nat, v: Value, st': FnState, n: nat, f': Frame)
    requires Steps(ops, m, Running(f, callers), n1) == Running(f1, callers)
    requires Keeps(f1, f, st) && Contains(st1.blocks, st.blocks)
    requires Simulates(ops, m, f1, callers, st1, o, fuel, v, st', n, f')
    ensures Simulates(ops, m, f, callers, st, o, fuel, v, st', n1 + n, f')
  {
    StepsAdd(ops, m, Running(f, callers), n1, n);
    if o.Done? {
      KeepsTrans(f', f1, f, st1, st);
    }
  }

  lemma EnvOnlyParams(named: map<string, Value>, args: seq<Double>, env: map<string, Double>)
    requires EnvMatches(named, args, env)
    ensures OnlyParams(named)
  {}

  lemma ExtendsContains(st1: FnState, st: FnState)
    requires Extends(st1, st)
    ensures Contains(st1.blocks, st.blocks)
  {}

  /** The tree compiles from `st`, and the frame is about to run its code. */
  ghost predicate Ready(defs: seq<Def>, m: Module, c: Context, e: Node, st: FnState, f: Frame, env: map<string, Double>) {
    && Setting(defs, m, c, f.args, env)
    && Compilable(e) && st.Valid() && Gen(c, e, st).0.Some?
    && At(f, st) && Contains(f.fn.blocks, Gen(c, e, st).1.blocks)
  }

  lemma {:induction false} SimExpr(ops: FloatOps, defs: seq<Def>, m: Module, c: Context, e: Node, st: FnState,
                f: Frame, callers: seq<Frame>, env: map<string, Double>, fuel: nat) returns (n: nat, f': Frame)
    requires Ready(defs, m, c, e, st, f, env)
    ensures var (v, st') := Gen(c, e, st);
      Simulates(ops, m, f, callers, st, Eval(ops, defs, env, e, fuel), fuel, v.value, st', n, f')
    decreases fuel, 1, e, 2
  {
    hide Implements, Linked;
    match e {
      case Dbl(_) => n, f' := 0, f;
      case Var(_) => n, f' := 0, f;
      case Block(stmts) =>
        n, f' := SimSeq(ops, defs, m, c, stmts, st, f, callers, env, fuel);
        if EvalSeq(ops, defs, env, stmts, fuel).Done? {
          RealsLast(ops, f', GenSeq(c, stmts, st).0.value);
        }
      case Bin(_, _, _) => n, f' := SimBinExpr(ops, defs, m, c, e, st, f, callers, env, fuel);
      case Call(_, _) => n, f' := SimCallExpr(ops, defs, m, c, e, st, f, callers, env, fuel);
      case If(_, _, _) => n, f' := SimIfExpr(ops, defs, m, c, e, st, f, callers, env, fuel);
    }
  }

  lemma {:induction false} SimBinExpr(ops: FloatOps, defs: seq<Def>, m: Module, c: Context, e: Node, st: FnState,
                f: Frame, callers: seq<Frame>, env: map<string, Double>, fuel: nat) returns (n: nat, f': Frame)
    requires e.Bin? && Ready(defs, m, c, e, st, f, env)
    ensures var (v, st') := Gen(c, e, st);
      Simulates(ops, m, f, callers, st, Eval(ops, defs, env, e, fuel), fuel, v.value, st', n, f')
    decreases fuel, 1, e, 1
  {
    hide Implements, Linked, Contains, EnvMatches, Extends, EmitBin, Gen;
    GenBin(c, e, st);
    EnvOnlyParams(c.named, f.args, env);
    var (lhs, st1) := Gen(c, e.left, st);
    var (rhs, st2) := Gen(c, e.right, st1);
    var (v, st3) := EmitBin(e.op, lhs.value, rhs.value, st2);
    GenExtends(c, e.left, st);
    GenExtends(c, e.right, st1);
    GenValueIn(c, e.left, st);
    EmitBinExtends(e.op, lhs.value, rhs.value, st2);
    ExtendsContains(st1, st);
    ExtendsContains(st2, st1);
    ExtendsContains(st3, st2);
    ContainsTrans(f.fn.blocks, st3.blocks, st2.blocks);
    ContainsTrans(f.fn.blocks, st2.blocks, st1.blocks);
    n, f' := SimExpr(ops, defs, m, c, e.left, st, f, callers, env, fuel);
    if Eval(ops, defs, env, e.left, fuel).Done? {
      var f1, n1 := f', n;
      n, f' := SimExpr(ops, defs, m, c, e.right, st1, f1, callers, env, fuel);
      var o := Eval(ops, defs, env, e.right, fuel);
      SimulatesAfter(ops, m, f, callers, st, n1, f1, st1, o, fuel, rhs.value, st2, n, f');
      n := n1 + n;
      if o.Done? {
        var f2, n2 := f', n;
        RealKept(ops, f1, f2, st1, lhs.value);
        var x, y := f2.Real(ops, lhs.value).value, o.value;
        n, f' := SimBin(ops, m, e.op, lhs.value, rhs.value, x, y, st2, f2, callers);
        ContainsTrans(st2.blocks, st1.blocks, st.blocks);
        SimulatesAfter(ops, m, f, callers, st, n2, f2, st2, Done(Apply(ops, e.op, x, y)), 0, v, st3, n, f');
        n := n2 + n;
      }
    }
  }

  /** A call instruction enters the callee with the values of the operands. */
  lemma CallStep(ops: FloatOps, m: Module, callee: string, vs: seq<Value>, ds: seq<Double>, st: FnState, f: Frame, callers: seq<Frame>)
    requires FindFunction(m, callee).Some? && FindFunction(m, callee).value.arity == |ds|
    requires At(f, st) && Contains(f.fn.blocks, st.Append(CallFn(callee, vs)).blocks)
    requires Reals(ops, f, vs) == Some(ds)
    ensures Steps(ops, m, Running(f, callers), 1) == Running(EntryFrame(FindFunction(m, callee).value, ds), [f] + callers)
  {
    NextInstr(f, st, CallFn(callee, vs));
    OneStep(ops, m, Running(f, callers));
  }

  /** From a call instruction to the return of its callee. */
  lemma {:induction false} SimCall(ops: FloatOps, defs: seq<Def>, m: Module, callee: string, vs: seq<Value>, ds: seq<Double>,
                st: FnState, f: Frame, callers: seq<Frame>, fuel: nat) returns (n: nat, f': Frame)
    requires Implements(m, defs) && FindFunction(m, callee).Some? && FindFunction(m, callee).value.arity == |ds|
    requires At(f, st) && Contains(f.fn.blocks, st.Append(CallFn(callee, vs)).blocks)
    requires Reals(ops, f, vs) == Some(ds)
    ensures Simulates(ops, m, f, callers, st, if fuel == 0 then Timeout else Invoke(ops, defs, callee, ds, fuel - 1), fuel,
                      st.Next(), st.Append(CallFn(callee, vs)), n, f')
    decreases fuel, 0
  {
    hide Implements;
    n, f' := 0, f;
    if fuel > 0 {
      var o := Invoke(ops, defs, callee, ds, fuel - 1);
      CallStep(ops, m, callee, vs, ds, st, f, callers);
      n := SimInvoke(ops, defs, m, callee, ds, fuel - 1, [f] + callers);
      StepsAdd(ops, m, Running(f, callers), 1, n);
      n := 1 + n;
      if o.Done? {
        f' := f.Define(D(o.value));
        AfterDefine(ops, f, st, CallFn(callee, vs), D(o.value));
        assert ([f] + callers)[1..] == callers;
      }
    }
  }

  lemma {:induction false} SimCallExpr(ops: FloatOps, defs: seq<Def>, m: Module, c: Context, e: Node, st: FnState,
                f: Frame, callers: seq<Frame>, env: map<string, Double>, fuel: nat) returns (n: nat, f': Frame)
    requires e.Call? && Ready(defs, m, c, e, st, f, env)
    ensures var (v, st') := Gen(c, e, st);
      Simulates(ops, m, f, callers, st, Eval(ops, defs, env, e, fuel), fuel, v.value, st', n, f')
    decreases fuel, 1, e, 1
  {
    hide Implements, Linked, EnvMatches, Gen, Extends;
    GenCall(c, e, st);
    var (vs, st1) := GenSeq(c, e.args, st);
    var st2 := st1.Append(CallFn(e.callee, vs.value));
    GenSeqExtends(c, e.args, st);
    ExtendsContains(st1, st);
    assert Contains(st2.blocks, st1.blocks);
    ContainsTrans(f.fn.blocks, st2.blocks, st1.blocks);
    n, f' := SimSeq(ops, defs, m, c, e.args, st, f, callers, env, fuel);
    var o := EvalSeq(ops, defs, env, e.args, fuel);
    if o.Done? {
      var f1, n1 := f', n;
      LinkedAt(m, c.sigs, e.callee);
      n, f' := SimCall(ops, defs, m, e.callee, vs.value, o.value, st1, f1, callers, fuel);
      var r := if fuel == 0 then Timeout else Invoke(ops, defs, e.callee, o.value, fuel - 1);
      SimulatesAfter(ops, m, f, callers, st, n1, f1, st1, r, fuel, st1.Next(), st2, n, f');
      n := n1 + n;
    }
  }

  /** The code of an arm, its branch to the merge block, and the phi there. */
  lemma {:induction false} SimArm(ops: FloatOps, defs: seq<Def>, m: Module, c: Context, arm: Node, st: FnState, phi: Instr, st6: FnState,
                f: Frame, callers: seq<Frame>, env: map<string, Double>, fuel: nat) returns (n: nat, f': Frame)
    requires Ready(defs, m, c, arm, st, f, env)
    requires st6.Valid() && st6.blocks[st6.cur] == [] && Contains(f.fn.blocks, st6.Append(phi).blocks)
    requires
      var (v, st1) := Gen(c, arm, st);
      && Contains(f.fn.blocks, st1.Append(Br(st6.cur)).blocks)
      && phi.Phi? && Incoming(phi.incoming, st1.cur) == v
      && st6.cur < |st1.blocks| && st1.blocks[st6.cur] == []
    ensures Simulates(ops, m, f, callers, st, Eval(ops, defs, env, arm, fuel), fuel, st6.Next(), st6.Append(phi), n, f')
    decreases fuel, 1, arm, 3
  {
    hide Implements, Linked;
    var (v, st1) := Gen(c, arm, st);
    GenExtends(c, arm, st);
    n, f' := SimExpr(ops, defs, m, c, arm, st, f, callers, env, fuel);
    var o := Eval(ops, defs, env, arm, fuel);
    if o.Done? {
      var f1, n1 := f', n;
      f' := SimJoin(ops, m, v.value, o.value, st6.cur, phi, st1, st6, f1, callers);
      SimulatesAfter(ops, m, f, callers, st, n1, f1, st1, o, 0, st6.Next(), st6.Append(phi), 2, f');
      n := n1 + 2;
    }
  }

  /** A function that holds the code of the whole `if` holds that of every stage. */
  lemma IfStagesContained(fn: seq<BasicBlock>, s: IfStages, phi: Instr)
    requires s.st1.Valid() && s.st2 == OpenIf(s.cv, s.st1) && Extends(s.st3, s.st2)
    requires s.st4 == s.st3.Append(Br(|s.st1.blocks| + 2)).PositionAt(|s.st1.blocks| + 1)
    requires s.st4.Valid() && Extends(s.st5, s.st4)
    requires s.st6 == s.st5.Append(Br(|s.st1.blocks| + 2)).PositionAt(|s.st1.blocks| + 2)
    requires s.st6.Valid() && Contains(fn, s.st6.Append(phi).blocks)
    ensures Contains(fn, s.st6.blocks) && Contains(fn, s.st5.blocks) && Contains(fn, s.st4.blocks)
    ensures Contains(fn, s.st3.blocks) && Contains(fn, s.st2.blocks) && Contains(fn, s.st1.blocks)
    ensures Contains(s.st4.blocks, s.st1.blocks)
  {
    ArmsApart(s);
    assert Contains(s.st6.Append(phi).blocks, s.st6.blocks);
    ContainsTrans(fn, s.st6.Append(phi).blocks, s.st6.blocks);
    ContainsTrans(fn, s.st6.blocks, s.st5.blocks);
    ContainsTrans(fn, s.st5.blocks, s.st4.blocks);
    ContainsTrans(fn, s.st4.blocks, s.st3.blocks);
    ContainsTrans(fn, s.st3.blocks, s.st2.blocks);
    ContainsTrans(fn, s.st2.blocks, s.st1.blocks);
    ContainsTrans(s.st4.blocks, s.st3.blocks, s.st2.blocks);
    ContainsTrans(s.st4.blocks, s.st2.blocks, s.st1.blocks);
  }

  lemma {:induction false} SimIfExpr(ops: FloatOps, defs: seq<Def>, m: Module, c: Context, e: Node, st: FnState,
                f: Frame, callers: seq<Frame>, env: map<string, Double>, fuel: nat) returns (n: nat, f': Frame)
    requires e.If? && Ready(defs, m, c, e, st, f, env)
    ensures var (v, st') := Gen(c, e, st);
      Simulates(ops, m, f, callers, st, Eval(ops, defs, env, e, fuel), fuel, v.value, st', n, f')
    decreases fuel, 1, e, 1
  {
    hide Implements, Linked, Contains, OpenIf, EnvMatches, Gen, Extends;
    var s := Stages(c, e, st);
    var phi := Phi([(s.tv, s.st3.cur), (s.ev, s.st5.cur)]);
    GenExtends(c, e.cond, st);
    GenExtends(c, e.thenBlock, s.st2);
    GenExtends(c, e.elseBlock, s.st4);
    IfStagesContained(f.fn.blocks, s, phi);
    ExtendsContains(s.st1, st);
    n, f' := SimExpr(ops, defs, m, c, e.cond, st, f, callers, env, fuel);
    var o := Eval(ops, defs, env, e.cond, fuel);
    if o.Done? {
      var f1, n1 := f', n;
      n, f' := SimBranch(ops, defs, m, c, e, s, o.value, f1, callers, env, fuel);
      var r := Eval(ops, defs, env, if ops.one(o.value, ops.lit(0)) then e.thenBlock else e.elseBlock, fuel);
      SimulatesAfter(ops, m, f, callers, st, n1, f1, s.st1, r, fuel, s.st6.Next(), s.st6.Append(phi), n, f');
      n := n1 + n;
    }
  }

  /** From the value of the condition to the phi, through the arm it selects. */
  lemma {:induction false} SimBranch(ops: FloatOps, defs: seq<Def>, m: Module, c: Context, e: Node, s: IfStages, x: Double,
                f: Frame, callers: seq<Frame>, env: map<string, Double>, fuel: nat) returns (n: nat, f': Frame)
    requires e.If? && Compilable(e) && Setting(defs, m, c, f.args, env)
    requires s.st1.Valid() && s.st2 == OpenIf(s.cv, s.st1) && Gen(c, e.thenBlock, s.st2) == (Some(s.tv), s.st3)
    requires s.st4 == s.st3.Append(Br(|s.st1.blocks| + 2)).PositionAt(|s.st1.blocks| + 1)
    requires s.st4.Valid() && Gen(c, e.elseBlock, s.st4) == (Some(s.ev), s.st5)
    requires s.st6 == s.st5.Append(Br(|s.st1.blocks| + 2)).PositionAt(|s.st1.blocks| + 2)
    requires s.st6.Valid() && At(f, s.st1) && f.Real(ops, s.cv) == Some(x)
    requires Contains(f.fn.blocks, s.st6.Append(Phi([(s.tv, s.st3.cur), (s.ev, s.st5.cur)])).blocks)
    ensures Simulates(ops, m, f, callers, s.st1,
                      Eval(ops, defs, env, if ops.one(x, ops.lit(0)) then e.thenBlock else e.elseBlock, fuel),
                      fuel, s.st6.Next(), s.st6.Append(Phi([(s.tv, s.st3.cur), (s.ev, s.st5.cur)])), n, f')
    decreases fuel, 1, e, 0
  {
    hide Implements, Linked, Contains, Gen, Eval, Setting, Simulates, Keeps, Extends, EnvMatches;
    var phi := Phi([(s.tv, s.st3.cur), (s.ev, s.st5.cur)]);
    GenExtends(c, e.thenBlock, s.st2);
    GenExtends(c, e.elseBlock, s.st4);
    OpenIfExtends(s.cv, s.st1);
    ArmsApart(s);
    IfStagesContained(f.fn.blocks, s, phi);
    assert phi.incoming[1..] == [(s.ev, s.st5.cur)];
    var f1 := SimOpenIf(ops, m, s.cv, x, s.st1, f, callers);
    var one := ops.one(x, ops.lit(0));
    var arm, start := if one then e.thenBlock else e.elseBlock, if one then s.st2 else s.st4;
    n, f' := SimArm(ops, defs, m, c, arm, start, phi, s.st6, f1, callers, env, fuel);
    SimulatesAfter(ops, m, f, callers, s.st1, 2, f1, start, Eval(ops, defs, env, arm, fuel), fuel,
                   s.st6.Next(), s.st6.Append(phi), n, f');
    n := 2 + n;
  }

  lemma {:induction false} SimSeq(ops: FloatOps, defs: seq<Def>, m: Module, c: Context, es: seq<Node>, st: FnState,
               f: Frame, callers: seq<Frame>, env: map<string, Double>, fuel: nat) returns (n: nat, f': Frame)
    requires Setting(defs, m, c, f.args, env)
    requires forall i | 0 <= i < |es| :: Compilable(es[i])
    requires st.Valid() && GenSeq(c, es, st).0.Some?
    requires At(f, st) && Contains(f.fn.blocks, GenSeq(c, es, st).1.blocks)
    ensures var (vs, st') := GenSeq(c, es, st);
      SimulatesSeq(ops, m, f, callers, st, EvalSeq(ops, defs, env, es, fuel), fuel, vs.value, st', n, f')
    decreases fuel, 1, es, 0
  {
    hide Implements, Linked, Contains, EnvMatches, Extends, Gen, Eval, Steps, ValuesIn;
    n, f' := 0, f;
    if |es| == 0 {
      SimNone(ops, m, f, callers, st, fuel);
    } else {
      var k := |es| - 1;
      var (vs, st1) := GenSeq(c, es[..k], st);
      var (v, st2) := Gen(c, es[k], st1);
      GenSeqExtends(c, es[..k], st);
      EnvOnlyParams(c.named, f.args, env);
      GenSeqValuesIn(c, es[..k], st);
      GenExtends(c, es[k], st1);
      ExtendsContains(st1, st);
      ExtendsContains(st2, st1);
      ContainsTrans(f.fn.blocks, st2.blocks, st1.blocks);
      n, f' := SimSeq(ops, defs, m, c, es[..k], st, f, callers, env, fuel);
      if EvalSeq(ops, defs, env, es[..k], fuel).Done? {
        var f1, n1 := f', n;
        n, f' := SimExpr(ops, defs, m, c, es[k], st1, f1, callers, env, fuel);
        SimSnoc(ops, m, f, callers, st, EvalSeq(ops, defs, env, es[..k], fuel), fuel, vs.value, st1, n1, f1,
                Eval(ops, defs, env, es[k], fuel), v.value, st2, n, f');
        n := n1 + n;
      }
    }
  }

  lemma SimNone(ops: FloatOps, m: Module, f: Frame, callers: seq<Frame>, st: FnState, fuel: nat)
    requires At(f, st)
    ensures SimulatesSeq(ops, m, f, callers, st, Done([]), fuel, [], st, 0, f)
  {}

  /** Values simulated, and then one more. */
  lemma SimSnoc(ops: FloatOps, m: Module, f: Frame, callers: seq<Frame>, st: FnState, os: Outcome<seq<Double>>, fuel: nat,
                vs: seq<Value>, st1: FnState, n1: nat, f1: Frame, o: Outcome<Double>, v: Value, st2: FnState, n: nat, f2: Frame)
    requires os.Done? && SimulatesSeq(ops, m, f, callers, st, os, fuel, vs, st1, n1, f1)
    requires Simulates(ops, m, f1, callers, st1, o, fuel, v, st2, n, f2)
    requires ValuesIn(st1.blocks, vs) && Contains(st1.blocks, st.blocks)
    ensures
      var all := match o case Done(d) => Done(os.value + [d]) case Timeout => Timeout case Wrong => Wrong;
      SimulatesSeq(ops, m, f, callers, st, all, fuel, vs + [v], st2, n1 + n, f2)
  {
    hide Contains, Step, Steps, Keeps, At;
    StepsAdd(ops, m, Running(f, callers), n1, n);
    if o.Done? {
      RealsKept(ops, f1, f2, st1, vs);
      KeepsTrans(f2, f1, f, st1, st);
      assert (vs + [v])[..|vs|] == vs;
    }
  }

  /** What happens to the waiting callers when a call gives `d`. */
  function ReturnTo(callers: seq<Frame>, d: Double): State {
    if |callers| == 0 then Returned(d) else Running(callers[0].Define(D(d)), callers[1..])
  }

  /** The end of a body: its `ret` hands the value to the caller. */
  lemma SimRet(ops: FloatOps, m: Module, v: Value, d: Double, st: FnState, f: Frame, callers: seq<Frame>)
    requires At(f, st) && Contains(f.fn.blocks, st.Append(Ret(v)).blocks) && f.Real(ops, v) == Some(d)
    ensures Steps(ops, m, Running(f, callers), 1) == ReturnTo(callers, d)
  {
    NextInstr(f, st, Ret(v));
    assert Steps(ops, m, Running(f, callers), 1) == Steps(ops, m, Step(ops, m, Running(f, callers)), 0);
  }

  /** A compiled call does what the source call does. */
  ghost predicate SimulatesCall(ops: FloatOps, m: Module, f: Frame, callers: seq<Frame>, o: Outcome<Double>, fuel: nat, n: nat) {
    var s := Steps(ops, m, Running(f, callers), n);
    match o
    case Done(d) => s == ReturnTo(callers, d)
    case Timeout => fuel <= n && s.Running?
    case Wrong => false
  }

  lemma {:induction false} SimInvoke(ops: FloatOps, defs: seq<Def>, m: Module, name: string, args: seq<Double>, fuel: nat,
                  callers: seq<Frame>) returns (n: nat)
    requires Implements(m, defs)
    requires FindFunction(m, name).Some? && FindFunction(m, name).value.arity == |args|
    ensures SimulatesCall(ops, m, EntryFrame(FindFunction(m, name).value, args), callers,
                          Invoke(ops, defs, name, args, fuel), fuel, n)
    decreases fuel, 2
  {
    var d := FindDef(defs, name).value;
    FindDefName(defs, name);
    var sigs :| CompiledAgainst(m, d, sigs);
    n := SimBody(ops, defs, m, d, sigs, args, fuel, callers);
  }

  /** A fresh frame of a compiled function is about to run the code of its body. */
  lemma BodyReady(defs: seq<Def>, m: Module, d: Def, sigs: seq<Signature>, args: seq<Double>)
    requires Implements(m, defs) && CompiledAgainst(m, d, sigs) && |d.proto.params| == |args|
    ensures
      var c := Context(BindParams(d.proto.params), sigs);
      var f := EntryFrame(FindFunction(m, d.proto.name).value, args);
      var (v, st) := Gen(c, d.body, ENTRY);
      && Ready(defs, m, c, d.body, ENTRY, f, Bind(d.proto.params, args))
      && v.Some? && Contains(f.fn.blocks, st.Append(Ret(v.value)).blocks)
  {
    hide Implements, Linked;
    var c := Context(BindParams(d.proto.params), sigs);
    var f := EntryFrame(FindFunction(m, d.proto.name).value, args);
    var (v, st) := Gen(c, d.body, ENTRY);
    BindMatches(d.proto.params, args);
    GenExtends(c, d.body, ENTRY);
    assert f.fn.blocks == st.Append(Ret(v.value)).blocks;
    ContainsTrans(f.fn.blocks, st.blocks, ENTRY.blocks);
  }

  lemma {:induction false} SimBody(ops: FloatOps, defs: seq<Def>, m: Module, d: Def, sigs: seq<Signature>, args: seq<Double>,
                fuel: nat, callers: seq<Frame>) returns (n: nat)
    requires Implements(m, defs) && CompiledAgainst(m, d, sigs) && |d.proto.params| == |args|
    ensures SimulatesCall(ops, m, EntryFrame(FindFunction(m, d.proto.name).value, args), callers,
                          Eval(ops, defs, Bind(d.proto.params, args), d.body, fuel), fuel, n)
    decreases fuel, 1, d.body, 3
  {
    hide Implements, Linked, Contains, Gen;
    var c := Context(BindParams(d.proto.params), sigs);
    var f := EntryFrame(FindFunction(m, d.proto.name).value, args);
    var env := Bind(d.proto.params, args);
    BodyReady(defs, m, d, sigs, args);
    var f1;
    n, f1 := SimExpr(ops, defs, m, c, d.body, ENTRY, f, callers, env, fuel);
    var o := Eval(ops, defs, env, d.body, fuel);
    if o.Done? {
      var (v, st) := Gen(c, d.body, ENTRY);
      SimRet(ops, m, v.value, o.value, st, f1, callers);
      StepsAdd(ops, m, Running(f, callers), n, 1);
      n := n + 1;
    }
  }

  // ---------- The theorem ----------

  lemma ImplementsAt(m: Module, defs: seq<Def>, name: string)
    requires Implements(m, defs) && FindDef(defs, name).Some?
    ensures FindFunction(m, name).Some?
    ensures FindFunction(m, name).value.arity == |FindDef(defs, name).value.proto.params|
  {
    FindDefName(defs, name);
    var sigs :| CompiledAgainst(m, FindDef(defs, name).value, sigs);
  }

  /** The compiled function `name`, run on `args`, returns `d`. */
  ghost predicate Returns(ops: FloatOps, m: Module, name: string, args: seq<Double>, d: Double) {
    exists n :: Steps(ops, m, Start(m, name, args), n) == Returned(d)
  }

  /** The source function `name`, evaluated on `args`, gives `d`. */
  ghost predicate EvaluatesTo(ops: FloatOps, defs: seq<Def>, name: string, args: seq<Double>, d: Double) {
    exists fuel :: Invoke(ops, defs, name, args, fuel) == Done(d)
  }

  lemma CompilerCorrect(ops: FloatOps, defs: seq<Def>, name: string, args: seq<Double>, d: Double)
    requires CompilableProgram(defs) && GenProgram(defs).Some?
    requires FindDef(defs, name).Some? && |FindDef(defs, name).value.proto.params| == |args|
    ensures Returns(ops, GenProgram(defs).value, name, args, d) <==> EvaluatesTo(ops, defs, name, args, d)
  {
    hide Implements, Invoke;
    var m := GenProgram(defs).value;
    GenProgramImplements(defs);
    ImplementsAt(m, defs, name);
    if fuel :| Invoke(ops, defs, name, args, fuel) == Done(d) {
      var n := SimInvoke(ops, defs, m, name, args, fuel, []);
      assert Steps(ops, m, Start(m, name, args), n) == Returned(d);
    }
    if n :| Steps(ops, m, Start(m, name, args), n) == Returned(d) {
      var n' := SimInvoke(ops, defs, m, name, args, n + 1, []);
      FinalStays(ops, m, Start(m, name, args), n, if n <= n' then n' else n);
      match Invoke(ops, defs, name, args, n + 1) {
        case Done(d') =>
          FinalStays(ops, m, Start(m, name, args), n', if n <= n' then n' else n);
        case Timeout =>
        case Wrong =>
      }
    }
  }

  /** However long a compiled function runs on the right number of arguments, it never gets stuck. */
  lemma CompiledNeverStuck(ops: FloatOps, defs: seq<Def>, name: string, args: seq<Double>, n: nat)
    requires CompilableProgram(defs) && GenProgram(defs).Some?
    requires FindDef(defs, name).Some? && |FindDef(defs, name).value.proto.params| == |args|
    ensures !Steps(ops, GenProgram(defs).value, Start(GenProgram(defs).value, name, args), n).Stuck?
  {
    hide Implements, Invoke;
    var m := GenProgram(defs).value;
    GenProgramImplements(defs);
    ImplementsAt(m, defs, name);
    var s := Start(m, name, args);
    var n' := SimInvoke(ops, defs, m, name, args, n, []);
    if Steps(ops, m, s, n).Stuck? {
      FinalStays(ops, m, s, n, if n <= n' then n' else n);
      if n' <= n && !Steps(ops, m, s, n').Running? {
        FinalStays(ops, m, s, n', n);
      }
    }
  }
}
