/**
 * Every function the code generator finishes passes LLVM's verifier, at any nesting of `if`s: the
 * invariant that each builder call keeps, and the theorem.
 */
module CodegenWellFormed {
  import opened Wrappers
  import opened Ast
  import opened Ir
  import opened Verifier
  import opened CodegenSpec
  import opened CodegenShape
  import CodegenCorrect
  import CodegenTyped

  /** For each block, blocks that every path to it passes through. */
  type Doms = seq<set<nat>>

  ghost predicate DomsValid(blocks: seq<BasicBlock>, doms: Doms) {
    && |doms| == |blocks| > 0 && doms[0] == {0}
    && (forall b | 0 <= b < |doms| :: b in doms[b])
    && forall p, b | 0 <= p < |blocks| && 0 <= b < |blocks| && b in AllTargets(blocks[p]) :: doms[b] <= doms[p] + {b}
  }

  /** The register is defined in a block that dominates block `b`, or earlier in `b` itself. */
  ghost predicate Reached(blocks: seq<BasicBlock>, arity: nat, doms: Doms, v: Value, b: nat, k: nat)
    requires b < |doms|
  {
    Exists(blocks, arity, v) && (v.Reg? ==> v.blk in doms[b] && (v.blk == b ==> v.pos < k))
  }

  ghost predicate IncomingReached(blocks: seq<BasicBlock>, arity: nat, doms: Doms, inc: (Value, nat))
    requires |doms| == |blocks|
  {
    inc.1 < |blocks| && Reached(blocks, arity, doms, inc.0, inc.1, |blocks[inc.1]|)
  }

  ghost predicate UsesReached(blocks: seq<BasicBlock>, arity: nat, doms: Doms, b: nat, k: nat)
    requires |doms| == |blocks| && b < |blocks| && k < |blocks[b]|
  {
    var i := blocks[b][k];
    && (forall v | v in Operands(i) :: Reached(blocks, arity, doms, v, b, k))
    && (i.Phi? ==> forall j | 0 <= j < |i.incoming| :: IncomingReached(blocks, arity, doms, i.incoming[j]))
  }

  ghost predicate AllUsesReached(blocks: seq<BasicBlock>, arity: nat, doms: Doms) {
    |doms| == |blocks| && forall b, k | 0 <= b < |blocks| && 0 <= k < |blocks[b]| :: UsesReached(blocks, arity, doms, b, k)
  }

  /** Every finished block has its terminator, the current one has none yet, and the pending ones are empty. */
  predicate BlockOk(st: FnState, pending: set<nat>, b: nat)
    requires b < |st.blocks|
  {
    if b == st.cur then Open(st.blocks[b])
    else if b in pending then st.blocks[b] == []
    else Terminated(st.blocks[b])
  }

  /** What holds between any two builder calls. */
  ghost predicate Inv(st: FnState, pending: set<nat>, doms: Doms, arity: nat) {
    && st.Valid() && st.cur !in pending && (forall b | b in pending :: b < |st.blocks|)
    && DomsValid(st.blocks, doms)
    && (forall b | 0 <= b < |st.blocks| :: BlockOk(st, pending, b) && TargetsValid(st.blocks, b) && PhiExact(st.blocks, b))
    && AllUsesReached(st.blocks, arity, doms)
  }

  /** The value may be used by the next instruction. */
  ghost predicate Usable(st: FnState, doms: Doms, arity: nat, v: Value) {
    st.cur < |st.blocks| && |doms| == |st.blocks| && Reached(st.blocks, arity, doms, v, st.cur, |st.blocks[st.cur]|)
  }

  /** Compiling from `st` to `st1` keeps what dominates, and gives no old block a new predecessor. */
  ghost predicate Grows(st: FnState, doms: Doms, st1: FnState, doms1: Doms) {
    && Extends(st1, st) && |doms| == |st.blocks| && |doms1| == |st1.blocks|
    && (forall b | 0 <= b < |doms| :: doms1[b] == doms[b])
    && doms[st.cur] <= doms1[st1.cur]
    && forall b | 0 <= b < |st.blocks| :: Preds(st1.blocks, b) == Preds(st.blocks, b)
  }

  lemma GrowsTrans(st: FnState, doms: Doms, st1: FnState, doms1: Doms, st2: FnState, doms2: Doms)
    requires Grows(st, doms, st1, doms1) && Grows(st1, doms1, st2, doms2)
    ensures Grows(st, doms, st2, doms2)
  {
    hide Preds;
    ExtendsTrans(st2, st1, st);
  }

  lemma UsableKept(st: FnState, doms: Doms, st1: FnState, doms1: Doms, arity: nat, v: Value)
    requires Grows(st, doms, st1, doms1) && Usable(st, doms, arity, v)
    ensures Usable(st1, doms1, arity, v)
  {
    hide Preds;
    if v.Reg? {
      assert st.blocks[v.blk] <= st1.blocks[v.blk];
    }
  }

  /** A block that keeps its instructions keeps their uses. */
  lemma UsesKept(st: FnState, doms: Doms, st1: FnState, doms1: Doms, arity: nat, b: nat, k: nat)
    requires Contains(st1.blocks, st.blocks) && |doms| == |st.blocks| && |doms1| == |st1.blocks|
    requires forall i | 0 <= i < |doms| :: doms1[i] == doms[i]
    requires b < |st.blocks| && k < |st.blocks[b]| && UsesReached(st.blocks, arity, doms, b, k)
    ensures UsesReached(st1.blocks, arity, doms1, b, k)
  {
    var i := st.blocks[b][k];
    assert st.blocks[b] <= st1.blocks[b];
    assert st1.blocks[b][k] == i;
    forall v | v in Operands(i) ensures Reached(st1.blocks, arity, doms1, v, b, k) {
      assert Reached(st.blocks, arity, doms, v, b, k);
      if v.Reg? { assert st.blocks[v.blk] <= st1.blocks[v.blk]; }
    }
    if i.Phi? {
      forall j | 0 <= j < |i.incoming|
        ensures IncomingReached(st1.blocks, arity, doms1, i.incoming[j])
      {
        var (v, p) := i.incoming[j];
        assert IncomingReached(st.blocks, arity, doms, i.incoming[j]);
        assert st.blocks[p] <= st1.blocks[p];
        if v.Reg? { assert st.blocks[v.blk] <= st1.blocks[v.blk]; }
      }
    }
  }

  lemma AllTargetsSnoc(b: BasicBlock, i: Instr)
    ensures AllTargets(b + [i]) == AllTargets(b) + i.Targets()
  {
    assert (b + [i])[..|b|] == b;
  }

  lemma PredsAppend(st: FnState, i: Instr, b: nat)
    requires st.Valid()
    ensures Preds(st.Append(i).blocks, b) == Preds(st.blocks, b) + if b in i.Targets() then {st.cur} else {}
  {
    AllTargetsSnoc(st.blocks[st.cur], i);
  }

  /** An instruction that neither ends a block nor joins paths. */
  predicate Plain(i: Instr) {
    !i.IsTerminator() && !i.Phi?
  }

  /** Appending an instruction whose own operands are reached keeps all uses reached. */
  lemma AppendUses(st: FnState, doms: Doms, arity: nat, i: Instr)
    requires st.Valid() && AllUsesReached(st.blocks, arity, doms)
    requires UsesReached(st.Append(i).blocks, arity, doms, st.cur, |st.blocks[st.cur]|)
    ensures AllUsesReached(st.Append(i).blocks, arity, doms)
  {
    var st1 := st.Append(i);
    forall b, k | 0 <= b < |st1.blocks| && 0 <= k < |st1.blocks[b]| ensures UsesReached(st1.blocks, arity, doms, b, k) {
      if k < |st.blocks[b]| {
        UsesKept(st, doms, st1, doms, arity, b, k);
      }
    }
  }

  lemma OperandsReached(st: FnState, doms: Doms, arity: nat, i: Instr)
    requires st.Valid() && !i.Phi? && |doms| == |st.blocks|
    requires forall v | v in Operands(i) :: Usable(st, doms, arity, v)
    ensures UsesReached(st.Append(i).blocks, arity, doms, st.cur, |st.blocks[st.cur]|)
  {
    var st1 := st.Append(i);
    assert st1.blocks[st.cur][|st.blocks[st.cur]|] == i;
    forall v | v in Operands(i) ensures Reached(st1.blocks, arity, doms, v, st.cur, |st.blocks[st.cur]|) {
      assert Usable(st, doms, arity, v);
      if v.Reg? { assert st.blocks[v.blk] <= st1.blocks[v.blk]; }
    }
  }

  /** An instruction that passes control nowhere keeps every edge. */
  lemma PlainEdges(st: FnState, i: Instr)
    requires st.Valid() && i.Targets() == {}
    ensures forall b | 0 <= b < |st.blocks| :: AllTargets(st.Append(i).blocks[b]) == AllTargets(st.blocks[b])
    ensures forall b :: Preds(st.Append(i).blocks, b) == Preds(st.blocks, b)
  {
    AllTargetsSnoc(st.blocks[st.cur], i);
    forall b ensures Preds(st.Append(i).blocks, b) == Preds(st.blocks, b) {
      PredsAppend(st, i, b);
    }
  }

  lemma AppendPlain(st: FnState, pending: set<nat>, doms: Doms, arity: nat, i: Instr)
    requires Inv(st, pending, doms, arity) && Plain(i)
    requires forall v | v in Operands(i) :: Usable(st, doms, arity, v)
    ensures Inv(st.Append(i), pending, doms, arity) && Grows(st, doms, st.Append(i), doms)
    ensures Usable(st.Append(i), doms, arity, st.Next())
  {
    var st1 := st.Append(i);
    PlainEdges(st, i);
    OperandsReached(st, doms, arity, i);
    AppendUses(st, doms, arity, i);
    assert UsesReached(st1.blocks, arity, doms, st.cur, |st.blocks[st.cur]|);
    hide Preds, AllTargets, UsesReached, Operands;
    forall b | 0 <= b < |st1.blocks|
      ensures BlockOk(st1, pending, b) && TargetsValid(st1.blocks, b) && PhiExact(st1.blocks, b)
    {
      assert BlockOk(st, pending, b) && TargetsValid(st.blocks, b) && PhiExact(st.blocks, b);
    }
  }

  /** A new, empty block, to be entered only from where control is now or from blocks to come. */
  lemma AddBlock(st: FnState, pending: set<nat>, doms: Doms, arity: nat)
    requires Inv(st, pending, doms, arity)
    ensures
      var n := |st.blocks|;
      var doms1 := doms + [doms[st.cur] + {n}];
      Inv(st.AppendBlock(), pending + {n}, doms1, arity) && Grows(st, doms, st.AppendBlock(), doms1)
      && Preds(st.AppendBlock().blocks, n) == {}
  {
    var n := |st.blocks|;
    var st1, doms1 := st.AppendBlock(), doms + [doms[st.cur] + {n}];
    assert AllTargets(st1.blocks[n]) == {};
    forall b | 0 <= b <= n ensures b < n ==> Preds(st1.blocks, b) == Preds(st.blocks, b)
      ensures b == n ==> Preds(st1.blocks, b) == {}
    {
      forall p | 0 <= p <= n ensures n !in AllTargets(st1.blocks[p]) {
        assert p < n ==> TargetsValid(st.blocks, p) && st1.blocks[p] == st.blocks[p];
      }
    }
    hide Preds, AllTargets;
    forall b | 0 <= b < |st1.blocks|
      ensures BlockOk(st1, pending + {n}, b) && TargetsValid(st1.blocks, b) && PhiExact(st1.blocks, b)
    {
      if b < n {
        assert BlockOk(st, pending, b) && TargetsValid(st.blocks, b) && PhiExact(st.blocks, b);
      }
    }
    forall p, b | 0 <= p < |st1.blocks| && 0 <= b < |st1.blocks| && b in AllTargets(st1.blocks[p])
      ensures doms1[b] <= doms1[p] + {b}
    {
      assert TargetsValid(st.blocks, p);
    }
    forall b, k | 0 <= b < |st1.blocks| && 0 <= k < |st1.blocks[b]| ensures UsesReached(st1.blocks, arity, doms1, b, k) {
      UsesKept(st, doms, st1, doms1, arity, b, k);
    }
    hide UsesReached;
  }

  /** A terminator that ends the current block and moves the builder to a pending one. */
  lemma Branch(st: FnState, pending: set<nat>, doms: Doms, arity: nat, i: Instr, next: nat)
    requires Inv(st, pending, doms, arity) && i.IsTerminator()
    requires forall v | v in Operands(i) :: Usable(st, doms, arity, v)
    requires forall t | t in i.Targets() :: t in pending && t < |st.blocks| && doms[t] <= doms[st.cur] + {t}
    requires next in pending && next < |st.blocks|
    requires forall t | t in i.Targets() :: 0 < t
    ensures Inv(st.Append(i).PositionAt(next), pending - {next}, doms, arity)
    ensures forall b | 0 <= b < |st.blocks| ::
      Preds(st.Append(i).PositionAt(next).blocks, b) == Preds(st.blocks, b) + if b in i.Targets() then {st.cur} else {}
  {
    var st1 := st.Append(i).PositionAt(next);
    AllTargetsSnoc(st.blocks[st.cur], i);
    forall b | 0 <= b < |st.blocks|
      ensures Preds(st1.blocks, b) == Preds(st.blocks, b) + if b in i.Targets() then {st.cur} else {}
    {
      PredsAppend(st, i, b);
    }
    OperandsReached(st, doms, arity, i);
    AppendUses(st, doms, arity, i);
    hide Preds, AllTargets, UsesReached, Operands;
    assert BlockOk(st, pending, st.cur);
    assert st1.blocks[st.cur][..|st.blocks[st.cur]|] == st.blocks[st.cur];
    forall b | 0 <= b < |st1.blocks|
      ensures BlockOk(st1, pending - {next}, b) && TargetsValid(st1.blocks, b) && PhiExact(st1.blocks, b)
    {
      assert BlockOk(st, pending, b) && TargetsValid(st.blocks, b) && PhiExact(st.blocks, b);
    }
  }

  /** The phi at the head of a merge block names exactly the blocks that branch to it. */
  lemma AppendPhi(st: FnState, pending: set<nat>, doms: Doms, arity: nat, incoming: seq<(Value, nat)>)
    requires Inv(st, pending, doms, arity) && st.blocks[st.cur] == []
    requires IncomingExact(incoming, Preds(st.blocks, st.cur))
    requires forall j | 0 <= j < |incoming| :: incoming[j].1 != st.cur && IncomingReached(st.blocks, arity, doms, incoming[j])
    ensures Inv(st.Append(Phi(incoming)), pending, doms, arity)
    ensures Grows(st, doms, st.Append(Phi(incoming)), doms)
    ensures Usable(st.Append(Phi(incoming)), doms, arity, st.Next())
  {
    var i := Phi(incoming);
    var st1 := st.Append(i);
    PlainEdges(st, i);
    assert UsesReached(st1.blocks, arity, doms, st.cur, 0) by {
      forall j | 0 <= j < |incoming| ensures IncomingReached(st1.blocks, arity, doms, incoming[j]) {
        assert IncomingReached(st.blocks, arity, doms, incoming[j]);
      }
    }
    AppendUses(st, doms, arity, i);
    hide Preds, AllTargets, UsesReached;
    forall b | 0 <= b < |st1.blocks|
      ensures BlockOk(st1, pending, b) && TargetsValid(st1.blocks, b) && PhiExact(st1.blocks, b)
    {
      assert BlockOk(st, pending, b) && TargetsValid(st.blocks, b) && PhiExact(st.blocks, b);
    }
  }

  /** Entries of the symbol table are parameters of the function. */
  predicate ParamsBelow(named: map<string, Value>, arity: nat) {
    forall x | x in named :: named[x].Param? && named[x].i < arity
  }

  lemma InvFacts(st: FnState, pending: set<nat>, doms: Doms, arity: nat)
    requires Inv(st, pending, doms, arity)
    ensures st.Valid() && |doms| == |st.blocks| > 0 && (forall b | b in pending :: b < |st.blocks|)
    ensures st.cur !in pending
    ensures forall n: nat :: Usable(st, doms, arity, ConstReal(n))
  {}

  lemma EmitBinInv(op: BinOp, a: Value, b: Value, st: FnState, pending: set<nat>, doms: Doms, arity: nat)
    requires Inv(st, pending, doms, arity) && Usable(st, doms, arity, a) && Usable(st, doms, arity, b)
    ensures var (v, st1) := EmitBin(op, a, b, st);
      Inv(st1, pending, doms, arity) && Grows(st, doms, st1, doms) && Usable(st1, doms, arity, v)
  {
    hide Inv, Grows, Usable;
    InvFacts(st, pending, doms, arity);
    var st1 := st.Append(BinInstr(op, a, b));
    AppendPlain(st, pending, doms, arity, BinInstr(op, a, b));
    if op == CmpLt {
      AppendPlain(st1, pending, doms, arity, UIToFP(st.Next()));
      GrowsTrans(st, doms, st1, doms, st1.Append(UIToFP(st.Next())), doms);
    }
  }

  /** The branch into the arms: the arms and the merge block are pending, and dominated by the test. */
  lemma OpenIfInv(cv: Value, st: FnState, pending: set<nat>, doms: Doms, arity: nat) returns (doms2: Doms)
    requires Inv(st, pending, doms, arity) && Usable(st, doms, arity, cv)
    ensures
      var st2, n := OpenIf(cv, st), |st.blocks|;
      && Inv(st2, pending + {n + 1, n + 2}, doms2, arity)
      && |doms2| == |st2.blocks| == n + 3 && (forall b | 0 <= b < n :: doms2[b] == doms[b])
      && doms2[n] == doms[st.cur] + {n} && doms2[n + 1] == doms[st.cur] + {n + 1} && doms2[n + 2] == doms[st.cur] + {n + 2}
      && (forall b | 0 <= b < n :: Preds(st2.blocks, b) == Preds(st.blocks, b))
      && Preds(st2.blocks, n + 2) == {}
  {
    hide Inv, Preds, Usable, Reached, Extends, Contains;
    var n, test := |st.blocks|, FCmp(ONE, cv, ConstReal(0));
    InvFacts(st, pending, doms, arity);
    AppendPlain(st, pending, doms, arity, test);
    var a := st.Append(test);
    AddBlock(a, pending, doms, arity);
    var da := doms + [doms[st.cur] + {n}];
    AddBlock(a.AppendBlock(), pending + {n}, da, arity);
    var db := da + [da[st.cur] + {n + 1}];
    AddBlock(a.AppendBlock().AppendBlock(), pending + {n} + {n + 1}, db, arity);
    doms2 := db + [db[st.cur] + {n + 2}];
    var d := a.AppendBlock().AppendBlock().AppendBlock();
    UsableKept(a, doms, a.AppendBlock(), da, arity, st.Next());
    UsableKept(a.AppendBlock(), da, a.AppendBlock().AppendBlock(), db, arity, st.Next());
    UsableKept(a.AppendBlock().AppendBlock(), db, d, doms2, arity, st.Next());
    Branch(d, pending + {n} + {n + 1} + {n + 2}, doms2, arity, CondBr(st.Next(), n, n + 1), n);
    assert pending + {n} + {n + 1} + {n + 2} - {n} == pending + {n + 1, n + 2};
  }

  lemma UsableIncoming(st: FnState, doms: Doms, st1: FnState, doms1: Doms, arity: nat, v: Value)
    requires Usable(st, doms, arity, v) && st.Valid() && Contains(st1.blocks, st.blocks)
    requires |doms| == |st.blocks| && |doms1| == |st1.blocks| && doms1[st.cur] == doms[st.cur]
    ensures IncomingReached(st1.blocks, arity, doms1, (v, st.cur))
  {
    assert st.blocks[st.cur] <= st1.blocks[st.cur];
    if v.Reg? {
      assert st.blocks[v.blk] <= st1.blocks[v.blk];
    }
  }

  /** The end of the first arm: its branch to the merge block `m`, and the move to the second arm. */
  lemma EndArm(st: FnState, pending: set<nat>, doms: Doms, arity: nat, m: nat, next: nat)
    requires Inv(st, pending, doms, arity) && m in pending && next in pending && 0 < m
    requires doms[m] <= doms[st.cur] + {m}
    ensures Inv(st.Append(Br(m)).PositionAt(next), pending - {next}, doms, arity)
    ensures forall b | 0 <= b < |st.blocks| ::
      Preds(st.Append(Br(m)).PositionAt(next).blocks, b) == Preds(st.blocks, b) + if b == m then {st.cur} else {}
  {
    hide Inv, Preds;
    InvFacts(st, pending, doms, arity);
    Branch(st, pending, doms, arity, Br(m), next);
    forall b | 0 <= b < |st.blocks|
      ensures Preds(st.Append(Br(m)).PositionAt(next).blocks, b) == Preds(st.blocks, b) + if b == m then {st.cur} else {}
    {
      assert b in Br(m).Targets() <==> b == m;
    }
  }

  /** What an `if` has been compiled to, up to the merge block. */
  ghost predicate IfStagesFollow(c: Context, e: Node, s: IfStages) {
    && e.If? && Compilable(e)
    && s.st1.Valid() && s.st2 == OpenIf(s.cv, s.st1) && s.st2.Valid()
    && Gen(c, e.thenBlock, s.st2) == (Some(s.tv), s.st3)
    && s.st4 == s.st3.Append(Br(|s.st1.blocks| + 2)).PositionAt(|s.st1.blocks| + 1) && s.st4.Valid()
    && Gen(c, e.elseBlock, s.st4) == (Some(s.ev), s.st5)
    && s.st6 == s.st5.Append(Br(|s.st1.blocks| + 2)).PositionAt(|s.st1.blocks| + 2) && s.st6.Valid()
  }

  lemma {:induction false} GenWellFormed(c: Context, e: Node, st: FnState, pending: set<nat>, doms: Doms, arity: nat)
    returns (doms': Doms)
    requires Compilable(e) && Inv(st, pending, doms, arity) && Gen(c, e, st).0.Some? && ParamsBelow(c.named, arity)
    ensures var (v, st') := Gen(c, e, st);
      Inv(st', pending, doms', arity) && Grows(st, doms, st', doms') && Usable(st', doms', arity, v.value)
    decreases e, 1
  {
    hide Inv, Preds, DomsValid, EmitBin, OpenIf, Contains;
    InvFacts(st, pending, doms, arity);
    match e {
      case Dbl(_) =>
        doms' := doms;
        GrowsRefl(st, pending, doms, arity);
      case Var(_) =>
        doms' := doms;
        GrowsRefl(st, pending, doms, arity);
      case Block(stmts) => doms' := GenSeqWellFormed(c, stmts, st, pending, doms, arity);
      case Bin(_, _, _) => doms' := GenBinWellFormed(c, e, st, pending, doms, arity);
      case Call(_, _) => doms' := GenCallWellFormed(c, e, st, pending, doms, arity);
      case If(cond, _, _) =>
        var s := Stages(c, e, st);
        var doms1 := GenWellFormed(c, cond, st, pending, doms, arity);
        doms' := GenIfWellFormed(c, e, s, pending, doms1, arity);
        GrowsTrans(st, doms, s.st1, doms1, Gen(c, e, st).1, doms');
    }
  }

  lemma {:induction false} GenBinWellFormed(c: Context, e: Node, st: FnState, pending: set<nat>, doms: Doms, arity: nat)
    returns (doms': Doms)
    requires e.Bin? && Compilable(e) && Inv(st, pending, doms, arity) && Gen(c, e, st).0.Some? && ParamsBelow(c.named, arity)
    ensures var (v, st') := Gen(c, e, st);
      Inv(st', pending, doms', arity) && Grows(st, doms, st', doms') && Usable(st', doms', arity, v.value)
    decreases e, 0
  {
    hide Inv, Preds, DomsValid, EmitBin, Contains, Gen;
    InvFacts(st, pending, doms, arity);
    GenBin(c, e, st);
    var (lhs, st1) := Gen(c, e.left, st);
    var (rhs, st2) := Gen(c, e.right, st1);
    var doms1 := GenWellFormed(c, e.left, st, pending, doms, arity);
    doms' := GenWellFormed(c, e.right, st1, pending, doms1, arity);
    UsableKept(st1, doms1, st2, doms', arity, lhs.value);
    EmitBinInv(e.op, lhs.value, rhs.value, st2, pending, doms', arity);
    GrowsTrans(st, doms, st1, doms1, st2, doms');
    GrowsTrans(st, doms, st2, doms', EmitBin(e.op, lhs.value, rhs.value, st2).1, doms');
  }

  lemma {:induction false} GenCallWellFormed(c: Context, e: Node, st: FnState, pending: set<nat>, doms: Doms, arity: nat)
    returns (doms': Doms)
    requires e.Call? && Compilable(e) && Inv(st, pending, doms, arity) && Gen(c, e, st).0.Some? && ParamsBelow(c.named, arity)
    ensures var (v, st') := Gen(c, e, st);
      Inv(st', pending, doms', arity) && Grows(st, doms, st', doms') && Usable(st', doms', arity, v.value)
    decreases e, 0
  {
    hide Inv, Preds, DomsValid, EmitBin, Contains, Gen;
    InvFacts(st, pending, doms, arity);
    GenCall(c, e, st);
    var (vs, st1) := GenSeq(c, e.args, st);
    doms' := GenSeqWellFormed(c, e.args, st, pending, doms, arity);
    AppendPlain(st1, pending, doms', arity, CallFn(e.callee, vs.value));
    GrowsTrans(st, doms, st1, doms', st1.Append(CallFn(e.callee, vs.value)), doms');
  }

  lemma {:induction false} GenIfWellFormed(c: Context, e: Node, s: IfStages, pending: set<nat>, doms: Doms, arity: nat)
    returns (doms': Doms)
    requires IfStagesFollow(c, e, s) && ParamsBelow(c.named, arity)
    requires Inv(s.st1, pending, doms, arity) && Usable(s.st1, doms, arity, s.cv)
    ensures var st' := s.st6.Append(Phi([(s.tv, s.st3.cur), (s.ev, s.st5.cur)]));
      Inv(st', pending, doms', arity) && Grows(s.st1, doms, st', doms') && Usable(st', doms', arity, s.st6.Next())
    decreases e, 0
  {
    hide Inv, Preds, DomsValid, Usable, Gen, Contains;
    var t := |s.st1.blocks|;
    InvFacts(s.st1, pending, doms, arity);
    var doms2 := OpenIfInv(s.cv, s.st1, pending, doms, arity);
    var doms3 := GenWellFormed(c, e.thenBlock, s.st2, pending + {t + 1, t + 2}, doms2, arity);
    EndArm(s.st3, pending + {t + 1, t + 2}, doms3, arity, t + 2, t + 1);
    assert pending + {t + 1, t + 2} - {t + 1} == pending + {t + 2};
    doms' := GenWellFormed(c, e.elseBlock, s.st4, pending + {t + 2}, doms3, arity);
    EndArm(s.st5, pending + {t + 2}, doms', arity, t + 2, t + 2);
    assert pending + {t + 2} - {t + 2} == pending;
    ArmsApart(s);
    var incoming := [(s.tv, s.st3.cur), (s.ev, s.st5.cur)];
    assert Preds(s.st6.blocks, t + 2) == {s.st3.cur, s.st5.cur};
    assert s.st3.cur != s.st5.cur && s.st3.cur == incoming[0].1 && s.st5.cur == incoming[1].1;
    ContainsTrans(s.st6.blocks, s.st5.blocks, s.st4.blocks);
    ContainsTrans(s.st6.blocks, s.st4.blocks, s.st3.blocks);
    UsableIncoming(s.st3, doms3, s.st6, doms', arity, s.tv);
    UsableIncoming(s.st5, doms', s.st6, doms', arity, s.ev);
    AppendPhi(s.st6, pending, doms', arity, incoming);
    IfExtends(s, Phi(incoming));
  }

  lemma {:induction false} GenSeqWellFormed(c: Context, es: seq<Node>, st: FnState, pending: set<nat>, doms: Doms, arity: nat)
    returns (doms': Doms)
    requires forall i | 0 <= i < |es| :: Compilable(es[i])
    requires Inv(st, pending, doms, arity) && GenSeq(c, es, st).0.Some? && ParamsBelow(c.named, arity)
    ensures var (vs, st') := GenSeq(c, es, st);
      && Inv(st', pending, doms', arity) && Grows(st, doms, st', doms')
      && forall i | 0 <= i < |es| :: Usable(st', doms', arity, vs.value[i])
    decreases es, 0
  {
    hide Inv, Preds, DomsValid, Usable, Contains;
    doms' := doms;
    InvFacts(st, pending, doms, arity);
    if |es| == 0 {
      GrowsRefl(st, pending, doms, arity);
    } else {
      var k := |es| - 1;
      var (vs, st1) := GenSeq(c, es[..k], st);
      var doms1 := GenSeqWellFormed(c, es[..k], st, pending, doms, arity);
      doms' := GenWellFormed(c, es[k], st1, pending, doms1, arity);
      var st2 := Gen(c, es[k], st1).1;
      GrowsTrans(st, doms, st1, doms1, st2, doms');
      forall i | 0 <= i < k ensures Usable(st2, doms', arity, vs.value[i]) {
        UsableKept(st1, doms1, st2, doms', arity, vs.value[i]);
      }
    }
  }

  lemma GrowsRefl(st: FnState, pending: set<nat>, doms: Doms, arity: nat)
    requires Inv(st, pending, doms, arity)
    ensures Grows(st, doms, st, doms)
  {}

  // ---------- The theorem ----------

  /** The recorded blocks really are on every path from the entry. */
  lemma {:induction false} OnEveryPath(blocks: seq<BasicBlock>, doms: Doms, path: seq<nat>, d: nat, b: nat)
    requires DomsValid(blocks, doms) && IsPath(blocks, path, b) && b < |blocks| && d in doms[b]
    ensures d in path
    decreases |path|
  {
    if |path| > 1 && d != b {
      var k := |path| - 2;
      var prefix := path[..|path| - 1];
      assert path[k] in Preds(blocks, path[k + 1]);
      OnEveryPath(blocks, doms, prefix, d, path[k]);
    }
  }

  lemma ReachedAvailable(blocks: seq<BasicBlock>, arity: nat, doms: Doms, v: Value, b: nat, k: nat)
    requires DomsValid(blocks, doms) && b < |blocks| && Reached(blocks, arity, doms, v, b, k)
    ensures AvailableAt(blocks, arity, v, b, k)
  {
    if v.Reg? && v.blk != b {
      forall path | IsPath(blocks, path, b) ensures v.blk in path {
        OnEveryPath(blocks, doms, path, v.blk, b);
      }
    }
  }

  lemma ReturnInv(st: FnState, doms: Doms, arity: nat, v: Value)
    requires Inv(st, {}, doms, arity) && Usable(st, doms, arity, v)
    ensures Structured(st.Append(Ret(v)).blocks, arity)
  {
    var blocks := st.Append(Ret(v)).blocks;
    AllTargetsSnoc(st.blocks[st.cur], Ret(v));
    forall b | 0 <= b < |blocks| ensures Preds(blocks, b) == Preds(st.blocks, b) {
      PredsAppend(st, Ret(v), b);
    }
    assert DomsValid(blocks, doms);
    hide Preds, AllTargets;
    forall b | 0 <= b < |blocks| ensures Terminated(blocks[b]) && TargetsValid(blocks, b) && PhiExact(blocks, b) {
      assert BlockOk(st, {}, b) && TargetsValid(st.blocks, b) && PhiExact(st.blocks, b);
      assert b == st.cur ==> blocks[b][..|blocks[b]| - 1] == st.blocks[b];
    }
    forall b, k | 0 <= b < |blocks| && 0 <= k < |blocks[b]| ensures UsesAvailable(blocks, arity, b, k) {
      if k < |st.blocks[b]| {
        UsesKept(st, doms, st.Append(Ret(v)), doms, arity, b, k);
      }
      var i := blocks[b][k];
      assert UsesReached(blocks, arity, doms, b, k);
      forall w | w in Operands(i) ensures AvailableAt(blocks, arity, w, b, k) {
        ReachedAvailable(blocks, arity, doms, w, b, k);
      }
      if i.Phi? {
        forall j | 0 <= j < |i.incoming| ensures IncomingAvailable(blocks, arity, i.incoming[j]) {
          var inc := i.incoming[j];
          assert IncomingReached(blocks, arity, doms, inc);
          ReachedAvailable(blocks, arity, doms, inc.0, inc.1, |blocks[inc.1]|);
        }
      }
    }
  }

  lemma {:induction false} BindParamsBelow(params: seq<string>)
    ensures ParamsBelow(BindParams(params), |params|)
  {
    if |params| > 0 {
      BindParamsBelow(params[..|params| - 1]);
    }
  }

  /** Whatever body the code generator finishes, LLVM's verifier accepts it. */
  lemma GenBodyVerified(sigs: seq<Signature>, d: Def)
    requires Compilable(d.body) && GenBody(sigs, d).Some?
    ensures Verified(sigs, GenBody(sigs, d).value, |d.proto.params|)
  {
    hide Structured, AllTyped;
    CodegenTyped.GenBodyTyped(sigs, d);
    var c := Context(BindParams(d.proto.params), sigs);
    BindParamsBelow(d.proto.params);
    assert AllTargets([]) == {};
    assert Inv(ENTRY, {}, [{0}], |d.proto.params|);
    hide Inv;
    var (v, st) := Gen(c, d.body, ENTRY);
    var doms := GenWellFormed(c, d.body, ENTRY, {}, [{0}], |d.proto.params|);
    ReturnInv(st, doms, |d.proto.params|, v.value);
  }

  lemma VerifiedInLarger(sigs: seq<Signature>, s: Signature, f: Function)
    requires Verified(sigs, f.blocks, f.arity)
    ensures Verified(sigs + [s], f.blocks, f.arity)
  {
    hide Structured, AllTyped;
    CodegenTyped.TypedInLarger(f.blocks, sigs, s);
  }

  /** In a compiled program every function passes the verifier. */
  lemma {:induction false} GenProgramVerified(defs: seq<Def>, i: nat)
    requires forall j | 0 <= j < |defs| :: Compilable(defs[j].body)
    requires GenProgram(defs).Some? && i < |GenProgram(defs).value|
    ensures var m := GenProgram(defs).value; Verified(Signatures(m), m[i].blocks, m[i].arity)
  {
    hide Verified, GenBody;
    if |defs| > 0 {
      var k := |defs| - 1;
      var m := GenProgram(defs[..k]).value;
      var p := defs[k].proto;
      var s := Signature(p.name, |p.params|);
      CodegenCorrect.GenProgramBodied(defs[..k]);
      CodegenCorrect.GenFuncAppends(m, defs[k]);
      assert Signatures(m + [Function(p.name, |p.params|, [])]) == Signatures(m) + [s] == Signatures(GenProgram(defs).value);
      if i < |m| {
        GenProgramVerified(defs[..k], i);
        VerifiedInLarger(Signatures(m), s, m[i]);
      } else {
        GenBodyVerified(Signatures(m) + [s], defs[k]);
      }
    }
  }

  /** Every function of the module passes the verifier. */
  ghost predicate ModuleVerified(m: Module) {
    forall i | 0 <= i < |m| :: Verified(Signatures(m), m[i].blocks, m[i].arity)
  }

  lemma AllVerified(defs: seq<Def>)
    requires CompilableProgram(defs) && GenProgram(defs).Some?
    ensures ModuleVerified(GenProgram(defs).value)
  {
    hide Verified;
    forall i | 0 <= i < |GenProgram(defs).value|
      ensures var m := GenProgram(defs).value; Verified(Signatures(m), m[i].blocks, m[i].arity)
    {
      GenProgramVerified(defs, i);
    }
  }
}
