/** Every instruction the code generator emits has operands of the types it takes. */
module CodegenTyped {
  import opened Ast
  import opened Ir
  import opened Verifier
  import opened CodegenSpec
  import opened CodegenShape

  lemma TypeKept(b: seq<BasicBlock>, a: seq<BasicBlock>, v: Value)
    requires Contains(b, a) && TypeOf(a, v) != NoValue
    ensures TypeOf(b, v) == TypeOf(a, v)
  {
    if v.Reg? {
      assert a[v.blk] <= b[v.blk];
    }
  }

  lemma TypedKept(b: seq<BasicBlock>, a: seq<BasicBlock>, sigs: seq<Signature>, i: Instr)
    requires Contains(b, a) && WellTyped(a, sigs, i)
    ensures WellTyped(b, sigs, i)
  {
    hide Contains, TypeOf;
    forall v | TypeOf(a, v) != NoValue ensures TypeOf(b, v) == TypeOf(a, v) {
      TypeKept(b, a, v);
    }
  }

  /** The blocks are well typed, and `v` is a double. */
  predicate TypedDouble(blocks: seq<BasicBlock>, sigs: seq<Signature>, v: Value) {
    AllTyped(blocks, sigs) && TypeOf(blocks, v) == DoubleType
  }

  lemma AppendTyped(st: FnState, sigs: seq<Signature>, i: Instr)
    requires st.Valid() && AllTyped(st.blocks, sigs) && WellTyped(st.blocks, sigs, i)
    ensures AllTyped(st.Append(i).blocks, sigs) && TypeOf(st.Append(i).blocks, st.Next()) == ResultType(i)
  {
    var st1 := st.Append(i);
    AppendExtends(st, i);
    forall b, k | 0 <= b < |st1.blocks| && 0 <= k < |st1.blocks[b]| ensures WellTyped(st1.blocks, sigs, st1.blocks[b][k]) {
      if k < |st.blocks[b]| {
        assert st1.blocks[b][k] == st.blocks[b][k];
      }
      TypedKept(st1.blocks, st.blocks, sigs, st1.blocks[b][k]);
    }
  }

  lemma AddBlockTyped(st: FnState, sigs: seq<Signature>)
    requires AllTyped(st.blocks, sigs)
    ensures AllTyped(st.AppendBlock().blocks, sigs) && Contains(st.AppendBlock().blocks, st.blocks)
  {
    var st1 := st.AppendBlock();
    forall b, k | 0 <= b < |st1.blocks| && 0 <= k < |st1.blocks[b]| ensures WellTyped(st1.blocks, sigs, st1.blocks[b][k]) {
      TypedKept(st1.blocks, st.blocks, sigs, st.blocks[b][k]);
    }
  }

  lemma EmitBinTyped(op: BinOp, a: Value, b: Value, st: FnState, sigs: seq<Signature>)
    requires st.Valid() && TypedDouble(st.blocks, sigs, a) && TypedDouble(st.blocks, sigs, b)
    ensures var (v, st1) := EmitBin(op, a, b, st); TypedDouble(st1.blocks, sigs, v)
  {
    hide AllTyped, TypeOf;
    var i := BinInstr(op, a, b);
    AppendTyped(st, sigs, i);
    if op == CmpLt {
      AppendTyped(st.Append(i), sigs, UIToFP(st.Next()));
    }
  }

  lemma OpenIfTyped(cv: Value, st: FnState, sigs: seq<Signature>)
    requires st.Valid() && TypedDouble(st.blocks, sigs, cv)
    ensures AllTyped(OpenIf(cv, st).blocks, sigs)
  {
    hide AllTyped, TypeOf;
    var test := FCmp(ONE, cv, ConstReal(0));
    var a := st.Append(test);
    ConstTyped(st.blocks, 0);
    AppendTyped(st, sigs, test);
    AddBlockTyped(a, sigs);
    AddBlockTyped(a.AppendBlock(), sigs);
    AddBlockTyped(a.AppendBlock().AppendBlock(), sigs);
    var b := a.AppendBlock().AppendBlock().AppendBlock();
    ContainsTrans(b.blocks, a.AppendBlock().AppendBlock().blocks, a.AppendBlock().blocks);
    ContainsTrans(b.blocks, a.AppendBlock().blocks, a.blocks);
    TypeKept(b.blocks, a.blocks, st.Next());
    AppendTyped(b, sigs, CondBr(st.Next(), |st.blocks|, |st.blocks| + 1));
  }

  lemma ConstTyped(blocks: seq<BasicBlock>, n: nat)
    ensures TypeOf(blocks, ConstReal(n)) == DoubleType
  {}

  /** The value of an expression is a double, and the blocks stay well typed. */
  lemma {:induction false} GenTyped(c: Context, e: Node, st: FnState)
    requires Compilable(e) && st.Valid() && Gen(c, e, st).0.Some? && OnlyParams(c.named) && AllTyped(st.blocks, c.sigs)
    ensures TypedDouble(Gen(c, e, st).1.blocks, c.sigs, Gen(c, e, st).0.value)
    decreases e, 1
  {
    hide AllTyped, Contains, EmitBin;
    match e
    case Dbl(_) =>
    case Var(_) =>
    case Block(stmts) => GenSeqTyped(c, stmts, st);
    case Bin(op, left, right) =>
      var (lhs, st1) := Gen(c, left, st);
      var (rhs, st2) := Gen(c, right, st1);
      GenTyped(c, left, st);
      GenTyped(c, right, st1);
      GenExtends(c, right, st1);
      TypeKept(st2.blocks, st1.blocks, lhs.value);
      EmitBinTyped(op, lhs.value, rhs.value, st2, c.sigs);
    case Call(f, args) =>
      var (vs, st1) := GenSeq(c, args, st);
      GenSeqTyped(c, args, st);
      AppendTyped(st1, c.sigs, CallFn(f, vs.value));
    case If(_, _, _) => GenIfTyped(c, e, st);
  }

  lemma {:induction false} GenIfTyped(c: Context, e: Node, st: FnState)
    requires e.If? && Compilable(e) && st.Valid() && Gen(c, e, st).0.Some? && OnlyParams(c.named) && AllTyped(st.blocks, c.sigs)
    ensures TypedDouble(Gen(c, e, st).1.blocks, c.sigs, Gen(c, e, st).0.value)
    decreases e, 0
  {
    hide AllTyped, Contains, OpenIf, Gen, TypeOf;
    var s := Stages(c, e, st);
    var join := Br(|s.st1.blocks| + 2);
    GenTyped(c, e.cond, st);
    OpenIfTyped(s.cv, s.st1, c.sigs);
    GenTyped(c, e.thenBlock, s.st2);
    AppendTyped(s.st3, c.sigs, join);
    GenTyped(c, e.elseBlock, s.st4);
    AppendTyped(s.st5, c.sigs, join);
    AppendExtends(s.st3, join);
    AppendExtends(s.st5, join);
    GenExtends(c, e.elseBlock, s.st4);
    ContainsTrans(s.st5.blocks, s.st4.blocks, s.st3.blocks);
    ContainsTrans(s.st6.blocks, s.st5.blocks, s.st3.blocks);
    TypeKept(s.st6.blocks, s.st3.blocks, s.tv);
    TypeKept(s.st6.blocks, s.st5.blocks, s.ev);
    AppendTyped(s.st6, c.sigs, Phi([(s.tv, s.st3.cur), (s.ev, s.st5.cur)]));
  }

  lemma {:induction false} GenSeqTyped(c: Context, es: seq<Node>, st: FnState)
    requires forall i | 0 <= i < |es| :: Compilable(es[i])
    requires st.Valid() && GenSeq(c, es, st).0.Some? && OnlyParams(c.named) && AllTyped(st.blocks, c.sigs)
    ensures
      var (vs, st1) := GenSeq(c, es, st);
      AllTyped(st1.blocks, c.sigs) && forall i | 0 <= i < |es| :: TypeOf(st1.blocks, vs.value[i]) == DoubleType
    decreases es, 0
  {
    hide AllTyped, Contains, TypeOf;
    if |es| > 0 {
      var k := |es| - 1;
      var (vs, st1) := GenSeq(c, es[..k], st);
      var st2 := Gen(c, es[k], st1).1;
      GenSeqTyped(c, es[..k], st);
      GenTyped(c, es[k], st1);
      GenExtends(c, es[k], st1);
      forall i | 0 <= i < k ensures TypeOf(st2.blocks, vs.value[i]) == DoubleType {
        TypeKept(st2.blocks, st1.blocks, vs.value[i]);
      }
    }
  }

  /** A finished body is well typed. */
  lemma GenBodyTyped(sigs: seq<Signature>, d: Def)
    requires Compilable(d.body) && GenBody(sigs, d).Some?
    ensures AllTyped(GenBody(sigs, d).value, sigs)
  {
    var c := Context(BindParams(d.proto.params), sigs);
    BindParamsOnly(d.proto.params);
    assert AllTyped(ENTRY.blocks, sigs);
    hide AllTyped, Gen, TypeOf;
    var (v, st) := Gen(c, d.body, ENTRY);
    GenTyped(c, d.body, ENTRY);
    AppendTyped(st, sigs, Ret(v.value));
  }

  lemma {:induction false} BindParamsOnly(params: seq<string>)
    ensures OnlyParams(BindParams(params))
  {
    if |params| > 0 {
      BindParamsOnly(params[..|params| - 1]);
    }
  }

  /** Functions added later change no call that was well typed. */
  lemma {:induction false} ArityKept(sigs: seq<Signature>, s: Signature, f: string)
    requires ArityOf(sigs, f).Some?
    ensures ArityOf(sigs + [s], f) == ArityOf(sigs, f)
    decreases |sigs|
  {
    if sigs[0].name != f {
      ArityKept(sigs[1..], s, f);
      assert (sigs + [s])[1..] == sigs[1..] + [s];
    }
  }

  lemma TypedInLarger(blocks: seq<BasicBlock>, sigs: seq<Signature>, s: Signature)
    requires AllTyped(blocks, sigs)
    ensures AllTyped(blocks, sigs + [s])
  {
    hide TypeOf;
    forall b, k | 0 <= b < |blocks| && 0 <= k < |blocks[b]| ensures WellTyped(blocks, sigs + [s], blocks[b][k]) {
      assert WellTyped(blocks, sigs, blocks[b][k]);
      if blocks[b][k].CallFn? {
        ArityKept(sigs, s, blocks[b][k].callee);
      }
    }
  }
}
