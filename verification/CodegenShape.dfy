/**
 * What compiling a tree does to the function under construction: it only appends, only to the
 * current block and to blocks of its own, and the value it gives is available afterwards.
 */
module CodegenShape {
  import opened Wrappers
  import opened Ast
  import opened Ir
  import opened CodegenSpec

  /** `b` has all of `a`'s blocks, each possibly continued. */
  ghost predicate Contains(b: seq<BasicBlock>, a: seq<BasicBlock>) {
    |a| <= |b| && forall i | 0 <= i < |a| :: a[i] <= b[i]
  }

  /** `st1` comes from `st` by appending to the current block and to new blocks. */
  ghost predicate Extends(st1: FnState, st: FnState) {
    && st.Valid() && st1.Valid()
    && Contains(st1.blocks, st.blocks)
    && (forall i | 0 <= i < |st.blocks| && i != st.cur :: st1.blocks[i] == st.blocks[i])
    && (st1.cur == st.cur || |st.blocks| <= st1.cur)
  }

  /** The place of a register is one that has been filled. */
  predicate InRegion(blocks: seq<BasicBlock>, key: (nat, nat)) {
    key.0 < |blocks| && key.1 < |blocks[key.0]|
  }

  predicate ValueIn(blocks: seq<BasicBlock>, v: Value) {
    v.Reg? ==> InRegion(blocks, (v.blk, v.pos))
  }

  lemma ContainsTrans(c: seq<BasicBlock>, b: seq<BasicBlock>, a: seq<BasicBlock>)
    requires Contains(c, b) && Contains(b, a)
    ensures Contains(c, a)
  {}

  lemma ExtendsTrans(st2: FnState, st1: FnState, st: FnState)
    requires Extends(st2, st1) && Extends(st1, st)
    ensures Extends(st2, st)
  {}

  /** The states that compiling an `if` passes through, and the values it combines. */
  datatype IfStages = IfStages(
    cv: Value, st1: FnState, st2: FnState,
    tv: Value, st3: FnState, st4: FnState,
    ev: Value, st5: FnState, st6: FnState)

  function Stages(c: Context, e: Node, st: FnState): (s: IfStages)
    requires e.If? && Compilable(e) && st.Valid() && Gen(c, e, st).0.Some?
    ensures Gen(c, e.cond, st) == (Some(s.cv), s.st1)
    ensures s.st1.Valid() && s.st2 == OpenIf(s.cv, s.st1)
    ensures s.st2.Valid() && Gen(c, e.thenBlock, s.st2) == (Some(s.tv), s.st3)
    ensures s.st3.Valid() && s.st4 == s.st3.Append(Br(|s.st1.blocks| + 2)).PositionAt(|s.st1.blocks| + 1)
    ensures s.st4.Valid() && Gen(c, e.elseBlock, s.st4) == (Some(s.ev), s.st5)
    ensures s.st5.Valid() && s.st6 == s.st5.Append(Br(|s.st1.blocks| + 2)).PositionAt(|s.st1.blocks| + 2)
    ensures s.st6.Valid() && Gen(c, e, st).0 == Some(s.st6.Next())
    ensures Gen(c, e, st).1 == s.st6.Append(Phi([(s.tv, s.st3.cur), (s.ev, s.st5.cur)]))
  {
    var (cv, st1) := Gen(c, e.cond, st);
    var st2 := OpenIf(cv.value, st1);
    var n := |st1.blocks|;
    var (tv, st3) := Gen(c, e.thenBlock, st2);
    var st4 := st3.Append(Br(n + 2)).PositionAt(n + 1);
    var (ev, st5) := Gen(c, e.elseBlock, st4);
    var st6 := st5.Append(Br(n + 2)).PositionAt(n + 2);
    IfStages(cv.value, st1, st2, tv.value, st3, st4, ev.value, st5, st6)
  }

  /** The steps of a successful binary operator. */
  lemma GenBin(c: Context, e: Node, st: FnState)
    requires e.Bin? && Compilable(e) && st.Valid() && Gen(c, e, st).0.Some?
    ensures
      var (lhs, st1) := Gen(c, e.left, st);
      var (rhs, st2) := Gen(c, e.right, st1);
      && lhs.Some? && rhs.Some?
      && Gen(c, e, st) == (Some(EmitBin(e.op, lhs.value, rhs.value, st2).0), EmitBin(e.op, lhs.value, rhs.value, st2).1)
  {}

  /** The steps of a successful call. */
  lemma GenCall(c: Context, e: Node, st: FnState)
    requires e.Call? && Compilable(e) && st.Valid() && Gen(c, e, st).0.Some?
    ensures
      var (vs, st1) := GenSeq(c, e.args, st);
      && vs.Some? && ArityOf(c.sigs, e.callee) == Some(|e.args|)
      && Gen(c, e, st) == (Some(st1.Next()), st1.Append(CallFn(e.callee, vs.value)))
  {}

  lemma OpenIfExtends(cv: Value, st: FnState)
    requires st.Valid()
    ensures Extends(OpenIf(cv, st), st)
    ensures var r := OpenIf(cv, st); var n := |st.blocks|;
      && r.blocks[n] == [] && r.blocks[n + 1] == [] && r.blocks[n + 2] == []
      && r.blocks[st.cur] == st.blocks[st.cur] + [FCmp(ONE, cv, ConstReal(0)), CondBr(st.Next(), n, n + 1)]
  {}

  /** The arms of an `if` leave each other's blocks and the merge block alone. */
  lemma ArmsApart(s: IfStages)
    requires s.st1.Valid() && s.st2 == OpenIf(s.cv, s.st1) && Extends(s.st3, s.st2)
    requires s.st4 == s.st3.Append(Br(|s.st1.blocks| + 2)).PositionAt(|s.st1.blocks| + 1)
    requires s.st4.Valid() && Extends(s.st5, s.st4)
    requires s.st6 == s.st5.Append(Br(|s.st1.blocks| + 2)).PositionAt(|s.st1.blocks| + 2)
    ensures var n := |s.st1.blocks|;
      && s.st6.Valid()
      && (s.st3.cur == n || n + 3 <= s.st3.cur)
      && (s.st5.cur == n + 1 || |s.st3.blocks| <= s.st5.cur)
      && s.st4.blocks[n + 1] == [] && s.st6.blocks[n + 2] == []
      && s.st3.blocks[s.st1.cur] == s.st2.blocks[s.st1.cur]
      && s.st6.blocks[s.st3.cur] == s.st3.blocks[s.st3.cur] + [Br(n + 2)]
      && s.st6.blocks[s.st5.cur] == s.st5.blocks[s.st5.cur] + [Br(n + 2)]
      && (forall i | 0 <= i < n && i != s.st1.cur :: s.st6.blocks[i] == s.st1.blocks[i])
      && Contains(s.st6.blocks, s.st5.blocks) && Contains(s.st5.blocks, s.st4.blocks)
      && Contains(s.st4.blocks, s.st3.blocks) && Contains(s.st3.blocks, s.st2.blocks)
      && Contains(s.st2.blocks, s.st1.blocks)
  {
    OpenIfExtends(s.cv, s.st1);
  }

  lemma IfExtends(s: IfStages, phi: Instr)
    requires s.st1.Valid() && s.st2 == OpenIf(s.cv, s.st1) && Extends(s.st3, s.st2)
    requires s.st4 == s.st3.Append(Br(|s.st1.blocks| + 2)).PositionAt(|s.st1.blocks| + 1)
    requires s.st4.Valid() && Extends(s.st5, s.st4)
    requires s.st6 == s.st5.Append(Br(|s.st1.blocks| + 2)).PositionAt(|s.st1.blocks| + 2)
    requires s.st6.Valid()
    ensures Extends(s.st6.Append(phi), s.st1)
  {
    ArmsApart(s);
    assert Contains(s.st6.blocks, s.st1.blocks) by {
      ContainsTrans(s.st6.blocks, s.st5.blocks, s.st4.blocks);
      ContainsTrans(s.st6.blocks, s.st4.blocks, s.st3.blocks);
      ContainsTrans(s.st6.blocks, s.st3.blocks, s.st2.blocks);
      ContainsTrans(s.st6.blocks, s.st2.blocks, s.st1.blocks);
    }
  }

  lemma EmitBinExtends(op: BinOp, a: Value, b: Value, st: FnState)
    requires st.Valid()
    ensures Extends(EmitBin(op, a, b, st).1, st)
  {}

  lemma {:induction false} GenExtends(c: Context, e: Node, st: FnState)
    requires Compilable(e) && st.Valid() && Gen(c, e, st).0.Some?
    ensures Extends(Gen(c, e, st).1, st)
    decreases e, 1
  {
    hide Contains, EmitBin;
    match e
    case Dbl(_) => ExtendsRefl(st);
    case Var(_) => ExtendsRefl(st);
    case Block(stmts) => GenSeqExtends(c, stmts, st);
    case Bin(op, left, right) =>
      var (lhs, st1) := Gen(c, left, st);
      var (rhs, st2) := Gen(c, right, st1);
      GenExtends(c, left, st);
      GenExtends(c, right, st1);
      EmitBinExtends(op, lhs.value, rhs.value, st2);
      ExtendsTrans(st2, st1, st);
      ExtendsTrans(EmitBin(op, lhs.value, rhs.value, st2).1, st2, st);
    case Call(f, args) =>
      var (vs, st1) := GenSeq(c, args, st);
      GenSeqExtends(c, args, st);
      AppendExtends(st1, CallFn(f, vs.value));
      ExtendsTrans(st1.Append(CallFn(f, vs.value)), st1, st);
    case If(_, _, _) => GenIfExtends(c, e, st);
  }

  lemma ExtendsRefl(st: FnState)
    requires st.Valid()
    ensures Extends(st, st)
  {}

  lemma AppendExtends(st: FnState, i: Instr)
    requires st.Valid()
    ensures Extends(st.Append(i), st)
  {}

  lemma {:induction false} GenIfExtends(c: Context, e: Node, st: FnState)
    requires e.If? && Compilable(e) && st.Valid() && Gen(c, e, st).0.Some?
    ensures Extends(Gen(c, e, st).1, st)
    decreases e, 0
  {
    hide Contains, OpenIf, Extends, Gen;
    var s := Stages(c, e, st);
    GenExtends(c, e.cond, st);
    GenExtends(c, e.thenBlock, s.st2);
    GenExtends(c, e.elseBlock, s.st4);
    IfExtends(s, Phi([(s.tv, s.st3.cur), (s.ev, s.st5.cur)]));
    ExtendsTrans(Gen(c, e, st).1, s.st1, st);
  }

  lemma {:induction false} GenSeqExtends(c: Context, es: seq<Node>, st: FnState)
    requires forall i | 0 <= i < |es| :: Compilable(es[i])
    requires st.Valid() && GenSeq(c, es, st).0.Some?
    ensures Extends(GenSeq(c, es, st).1, st)
    decreases es, 0
  {
    if |es| > 0 {
      var k := |es| - 1;
      GenSeqExtends(c, es[..k], st);
      var st1 := GenSeq(c, es[..k], st).1;
      GenExtends(c, es[k], st1);
      ExtendsTrans(Gen(c, es[k], st1).1, st1, st);
    }
  }

  predicate ValuesIn(blocks: seq<BasicBlock>, vs: seq<Value>) {
    forall i | 0 <= i < |vs| :: ValueIn(blocks, vs[i])
  }

  /** A symbol table that holds parameters only. */
  predicate OnlyParams(named: map<string, Value>) {
    forall x | x in named :: named[x].Param?
  }

  /** The value of a tree is one the blocks already hold once the tree is compiled. */
  lemma {:induction false} GenValueIn(c: Context, e: Node, st: FnState)
    requires Compilable(e) && st.Valid() && Gen(c, e, st).0.Some? && OnlyParams(c.named)
    ensures ValueIn(Gen(c, e, st).1.blocks, Gen(c, e, st).0.value)
    decreases e, 1
  {
    match e
    case Block(stmts) => GenSeqValuesIn(c, stmts, st);
    case _ =>
  }

  lemma {:induction false} GenSeqValuesIn(c: Context, es: seq<Node>, st: FnState)
    requires forall i | 0 <= i < |es| :: Compilable(es[i])
    requires st.Valid() && GenSeq(c, es, st).0.Some? && OnlyParams(c.named)
    ensures ValuesIn(GenSeq(c, es, st).1.blocks, GenSeq(c, es, st).0.value)
    decreases es, 0
  {
    if |es| > 0 {
      var k := |es| - 1;
      GenSeqValuesIn(c, es[..k], st);
      var st1 := GenSeq(c, es[..k], st).1;
      GenValueIn(c, es[k], st1);
      GenExtends(c, es[k], st1);
    }
  }
}
