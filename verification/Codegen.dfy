/**
 * The recursive walk of src/codegen.c, step by step: it appends to the module through a builder and
 * looks names up in a hash table. Each method is proved to compute the function of CodegenSpec.
 */
module Codegen {
  import opened Wrappers
  import opened Ast
  import opened Ir
  import opened CodegenSpec
  import CodegenCorrect
  import CodegenScope
  import CodegenWellFormed
  import Verifier
  import SymbolTable
  import TableRefinement
  import TableModel
  import HT = HashTable

  type Symbols = HT.HashTable<Value>

  /** The symbol table is in order and holds exactly `syms`. */
  ghost predicate Knows(named: Symbols, syms: map<string, Value>)
    reads named, named.Repr
  {
    named.Valid() && SymbolTable.Represents(named.cfg, named.Model(), syms)
  }

  /** The module with the blocks of one function left out. */
  ghost function Without(m: Module, fn: nat): Module {
    if fn < |m| then m[fn := m[fn].(blocks := [])] else m
  }

  /** The same module but for the blocks of one function. */
  ghost predicate SameElse(m: Module, m1: Module, fn: nat) {
    Without(m1, fn) == Without(m, fn)
  }

  lemma SameSignatures(m: Module, m1: Module, fn: nat)
    requires SameElse(m, m1, fn)
    ensures Signatures(m1) == Signatures(m)
  {
    assert |m1| == |Without(m1, fn)| == |Without(m, fn)| == |m|;
    forall i | 0 <= i < |m| ensures m1[i].name == m[i].name && m1[i].arity == m[i].arity {
      assert Without(m1, fn)[i] == Without(m, fn)[i];
    }
  }

  lemma OnlyBlocksDiffer(m: Module, m1: Module, fn: nat)
    requires SameElse(m, m1, fn) && fn < |m|
    ensures |m1| == |m| && m1 == m[fn := m[fn].(blocks := m1[fn].blocks)]
  {
    assert |m1| == |Without(m1, fn)| == |Without(m, fn)| == |m|;
    forall i | 0 <= i < |m| ensures m1[i] == m[fn := m[fn].(blocks := m1[fn].blocks)][i] {
      assert Without(m1, fn)[i] == Without(m, fn)[i];
    }
  }

  /** An LLVM module, and the block new instructions are appended to. */
  class Builder {
    var funcs: Module
    var fn: nat
    var block: nat

    constructor ()
      ensures funcs == []
    {
      funcs, fn, block := [], 0, 0;
    }

    ghost predicate Positioned()
      reads this
    {
      fn < |funcs| && block < |funcs[fn].blocks|
    }

    ghost function State(): (st: FnState)
      requires Positioned()
      reads this
      ensures st.Valid()
    {
      FnState(funcs[fn].blocks, block)
    }

    /** Appends an instruction to the current block. */
    method Emit(i: Instr) returns (v: Value)
      requires Positioned()
      modifies this
      ensures Positioned() && fn == old(fn) && SameElse(old(funcs), funcs, fn)
      ensures State() == old(State()).Append(i) && v == old(State()).Next()
    {
      var f := funcs[fn];
      v := Reg(block, |f.blocks[block]|);
      funcs := funcs[fn := f.(blocks := f.blocks[block := f.blocks[block] + [i]])];
    }

    /** A new, empty block at the end of the current function. */
    method AppendBasicBlock() returns (b: nat)
      requires Positioned()
      modifies this
      ensures Positioned() && fn == old(fn) && SameElse(old(funcs), funcs, fn)
      ensures State() == old(State()).AppendBlock() && b == |old(State()).blocks|
    {
      b := |funcs[fn].blocks|;
      funcs := funcs[fn := funcs[fn].(blocks := funcs[fn].blocks + [[]])];
    }

    /** A new function without a body, at the end of the module. */
    method AddFunction(name: string, arity: nat) returns (f: nat)
      modifies this
      ensures funcs == old(funcs) + [Function(name, arity, [])] && f == |old(funcs)|
    {
      f := |funcs|;
      funcs := funcs + [Function(name, arity, [])];
    }

    method DeleteFunction(f: nat)
      requires f < |funcs|
      modifies this
      ensures funcs == old(funcs)[..f] + old(funcs)[f + 1..]
    {
      funcs := funcs[..f] + funcs[f + 1..];
    }

    /** Gives a function its entry block, and enters it. */
    method EnterFunction(f: nat)
      requires f < |funcs| && funcs[f].blocks == []
      modifies this
      ensures Positioned() && fn == f && SameElse(old(funcs), funcs, f) && State() == ENTRY
    {
      funcs := funcs[f := funcs[f].(blocks := [[]])];
      fn, block := f, 0;
    }

    method PositionAtEnd(b: nat)
      requires Positioned() && b < |State().blocks|
      modifies this
      ensures Positioned() && fn == old(fn) && funcs == old(funcs) && State() == old(State()).PositionAt(b)
    {
      block := b;
    }
  }

  /** Index of the first function called `name`; the length of the module when there is none. */
  method GetNamedFunction(m: Module, name: string) returns (i: nat)
    ensures i <= |m| && FindFunction(m, name) == if i < |m| then Some(m[i]) else None
    ensures forall blocks :: SetBlocks(m, name, blocks) == if i < |m| then m[i := m[i].(blocks := blocks)] else m
    ensures i < |m| ==> m[i].name == name
  {
    i := 0;
    while i < |m| && m[i].name != name
      invariant i <= |m| && FindFunction(m, name) == FindFunction(m[i..], name)
      invariant forall blocks :: SetBlocks(m, name, blocks) == m[..i] + SetBlocks(m[i..], name, blocks)
    {
      assert m[i..][1..] == m[i + 1..];
      forall blocks ensures SetBlocks(m, name, blocks) == m[..i + 1] + SetBlocks(m[i + 1..], name, blocks) {
        assert m[..i] + ([m[i]] + SetBlocks(m[i + 1..], name, blocks)) == m[..i + 1] + SetBlocks(m[i + 1..], name, blocks);
      }
      i := i + 1;
    }
    forall blocks ensures SetBlocks(m, name, blocks) == if i < |m| then m[i := m[i].(blocks := blocks)] else m {
      if i < |m| {
        assert m[i..][0] == m[i] && m[i..][1..] == m[i + 1..];
        assert m[..i] + ([m[i].(blocks := blocks)] + m[i + 1..]) == m[i := m[i].(blocks := blocks)];
      }
    }
  }

  ghost function ContextOf(syms: map<string, Value>, m: Module): Context {
    Context(syms, Signatures(m))
  }

  method DoCodegen(n: Node, b: Builder, named: Symbols, ghost syms: map<string, Value>) returns (r: Option<Value>)
    requires Compilable(n) && b.Positioned() && Knows(named, syms) && b !in named.Repr
    modifies b
    ensures b.Positioned() && b.fn == old(b.fn) && SameElse(old(b.funcs), b.funcs, b.fn)
    ensures (r, b.State()) == Gen(ContextOf(syms, old(b.funcs)), n, old(b.State()))
    decreases n, 1
  {
    match n {
      case Dbl(k) => r := Some(ConstReal(k));
      case Var(x) => r := CodegenVar(x, named, syms);
      case Block(_) => r := CodegenBlock(n, b, named, syms);
      case Bin(_, _, _) => r := CodegenBinop(n, b, named, syms);
      case Call(_, _) => r := CodegenFunccall(n, b, named, syms);
      case If(_, _, _) => r := CodegenIf(n, b, named, syms);
    }
  }

  method CodegenVar(x: string, named: Symbols, ghost syms: map<string, Value>) returns (r: Option<Value>)
    requires Knows(named, syms)
    ensures r == if x in syms then Some(syms[x]) else None
  {
    r := named.GetData(SymbolTable.CStr(x));
    SymbolTable.Lookup(named.cfg, named.Model(), syms, x);
  }

  method CodegenBinop(n: Node, b: Builder, named: Symbols, ghost syms: map<string, Value>) returns (r: Option<Value>)
    requires n.Bin? && Compilable(n) && b.Positioned() && Knows(named, syms) && b !in named.Repr
    modifies b
    ensures b.Positioned() && b.fn == old(b.fn) && SameElse(old(b.funcs), b.funcs, b.fn)
    ensures (r, b.State()) == Gen(ContextOf(syms, old(b.funcs)), n, old(b.State()))
    decreases n, 0
  {
    hide Knows, Without, Signatures;
    var lhs := DoCodegen(n.left, b, named, syms);
    SameSignatures(old(b.funcs), b.funcs, b.fn);
    var rhs := DoCodegen(n.right, b, named, syms);
    if lhs.None? || rhs.None? {
      return None;
    }
    match n.op {
      case Add =>
        var v := b.Emit(FAdd(lhs.value, rhs.value));
        r := Some(v);
      case Sub =>
        var v := b.Emit(FSub(lhs.value, rhs.value));
        r := Some(v);
      case Mul =>
        var v := b.Emit(FMul(lhs.value, rhs.value));
        r := Some(v);
      case Div =>
        var v := b.Emit(FDiv(lhs.value, rhs.value));
        r := Some(v);
      case CmpLt =>
        var c := b.Emit(FCmp(ULT, lhs.value, rhs.value));
        var v := b.Emit(UIToFP(c));
        r := Some(v);
    }
  }

  method CodegenBlock(n: Node, b: Builder, named: Symbols, ghost syms: map<string, Value>) returns (r: Option<Value>)
    requires n.Block? && Compilable(n) && b.Positioned() && Knows(named, syms) && b !in named.Repr
    modifies b
    ensures b.Positioned() && b.fn == old(b.fn) && SameElse(old(b.funcs), b.funcs, b.fn)
    ensures (r, b.State()) == Gen(ContextOf(syms, old(b.funcs)), n, old(b.State()))
    decreases n, 0
  {
    hide Knows, Without, Signatures, Gen;
    GenBlock(ContextOf(syms, b.funcs), n, b.State());
    ghost var c, st0, m0, vs := ContextOf(syms, b.funcs), b.State(), b.funcs, [];
    var i, val := 0, None;
    while i < |n.stmts|
      invariant i <= |n.stmts| && b.Positioned() && b.fn == old(b.fn) && SameElse(m0, b.funcs, b.fn)
      invariant |vs| == i && GenSeq(c, n.stmts[..i], st0) == (Some(vs), b.State())
      invariant i > 0 ==> val == Some(vs[i - 1])
    {
      SameSignatures(m0, b.funcs, b.fn);
      GenSeqNext(c, n.stmts, st0, i);
      val := DoCodegen(n.stmts[i], b, named, syms);
      if val.None? {
        GenSeqStops(c, n.stmts, st0, i + 1);
        return None;
      }
      vs := vs + [val.value];
      i := i + 1;
    }
    assert n.stmts[..i] == n.stmts;
    return val;
  }

  lemma GenBlock(c: Context, n: Node, st: FnState)
    requires n.Block? && Compilable(n) && st.Valid()
    ensures
      var (vs, st1) := GenSeq(c, n.stmts, st);
      Gen(c, n, st) == (if vs.Some? then Some(vs.value[|n.stmts| - 1]) else None, st1)
    ensures GenSeq(c, n.stmts[..0], st) == (Some([]), st)
  {}

  lemma GenSeqNext(c: Context, es: seq<Node>, st: FnState, i: nat)
    requires forall j | 0 <= j < |es| :: Compilable(es[j])
    requires st.Valid() && i < |es| && GenSeq(c, es[..i], st).0.Some?
    ensures
      var (vs, st1) := GenSeq(c, es[..i], st);
      var (v, st2) := Gen(c, es[i], st1);
      GenSeq(c, es[..i + 1], st) == (if v.Some? then Some(vs.value + [v.value]) else None, st2)
  {
    assert es[..i + 1][..i] == es[..i];
  }

  /** Once a tree has failed, the rest are not compiled. */
  lemma {:induction false} GenSeqStops(c: Context, es: seq<Node>, st: FnState, i: nat)
    requires forall j | 0 <= j < |es| :: Compilable(es[j])
    requires st.Valid() && i <= |es| && GenSeq(c, es[..i], st).0.None?
    ensures GenSeq(c, es, st) == GenSeq(c, es[..i], st)
    decreases |es|
  {
    if i < |es| {
      var k := |es| - 1;
      assert es[..k][..i] == es[..i];
      GenSeqStops(c, es[..k], st, i);
    } else {
      assert es[..i] == es;
    }
  }

  method CodegenFunccall(n: Node, b: Builder, named: Symbols, ghost syms: map<string, Value>) returns (r: Option<Value>)
    requires n.Call? && Compilable(n) && b.Positioned() && Knows(named, syms) && b !in named.Repr
    modifies b
    ensures b.Positioned() && b.fn == old(b.fn) && SameElse(old(b.funcs), b.funcs, b.fn)
    ensures (r, b.State()) == Gen(ContextOf(syms, old(b.funcs)), n, old(b.State()))
    decreases n, 0
  {
    hide Knows, Without, Signatures, Gen, FindFunction, SetBlocks;
    var func := GetNamedFunction(b.funcs, n.callee);
    CodegenCorrect.ArityOfSignatures(b.funcs, n.callee);
    GenCallAs(ContextOf(syms, b.funcs), n, b.State());
    if func == |b.funcs| || b.funcs[func].arity != |n.args| {
      return None;
    }
    var args := CodegenArgs(n.args, b, named, syms);
    if args.None? {
      return None;
    }
    var v := b.Emit(CallFn(n.callee, args.value));
    r := Some(v);
  }

  /** The arguments of a call, from left to right. */
  method CodegenArgs(ns: seq<Node>, b: Builder, named: Symbols, ghost syms: map<string, Value>) returns (r: Option<seq<Value>>)
    requires (forall i | 0 <= i < |ns| :: Compilable(ns[i])) && b.Positioned() && Knows(named, syms) && b !in named.Repr
    modifies b
    ensures b.Positioned() && b.fn == old(b.fn) && SameElse(old(b.funcs), b.funcs, b.fn)
    ensures (r, b.State()) == GenSeq(ContextOf(syms, old(b.funcs)), ns, old(b.State()))
    decreases ns, 0
  {
    ghost var c, st0, m0 := ContextOf(syms, b.funcs), b.State(), b.funcs;
    assert GenSeq(c, ns[..0], st0) == (Some([]), st0);
    hide Knows, Without, Signatures, Gen, GenSeq;
    var args := new Value[|ns|];
    var i := 0;
    while i < |ns|
      invariant i <= |ns| && b.Positioned() && b.fn == old(b.fn) && SameElse(m0, b.funcs, b.fn)
      invariant GenSeq(c, ns[..i], st0) == (Some(args[..i]), b.State())
    {
      SameSignatures(m0, b.funcs, b.fn);
      GenSeqNext(c, ns, st0, i);
      var v := DoCodegen(ns[i], b, named, syms);
      if v.None? {
        GenSeqStops(c, ns, st0, i + 1);
        return None;
      }
      args[i] := v.value;
      assert args[..i + 1] == args[..i] + [v.value];
      i := i + 1;
    }
    assert ns[..i] == ns && args[..] == args[..i];
    return Some(args[..]);
  }

  lemma GenCallAs(c: Context, n: Node, st: FnState)
    requires n.Call? && Compilable(n) && st.Valid()
    ensures Gen(c, n, st) ==
      if ArityOf(c.sigs, n.callee) != Some(|n.args|) then (None, st)
      else
        var (vs, st1) := GenSeq(c, n.args, st);
        if vs.None? then (None, st1) else (Some(st1.Next()), st1.Append(CallFn(n.callee, vs.value)))
  {}

  method CodegenIf(n: Node, b: Builder, named: Symbols, ghost syms: map<string, Value>) returns (r: Option<Value>)
    requires n.If? && Compilable(n) && b.Positioned() && Knows(named, syms) && b !in named.Repr
    modifies b
    ensures b.Positioned() && b.fn == old(b.fn) && SameElse(old(b.funcs), b.funcs, b.fn)
    ensures (r, b.State()) == Gen(ContextOf(syms, old(b.funcs)), n, old(b.State()))
    decreases n, 0
  {
    hide Knows, Without, Signatures, OpenIf, Gen, Compilable;
    GenIfAs(ContextOf(syms, b.funcs), n, b.State());
    var cond := DoCodegen(n.cond, b, named, syms);
    if cond.None? {
      return None;
    }
    var thenBlock, elseBlock, mergeBlock := OpenArms(cond.value, b);
    SameSignatures(old(b.funcs), b.funcs, b.fn);
    var thenValue := DoCodegen(n.thenBlock, b, named, syms);
    if thenValue.None? {
      return None;
    }
    thenBlock := CloseArm(b, mergeBlock, elseBlock);
    SameSignatures(old(b.funcs), b.funcs, b.fn);
    var elseValue := DoCodegen(n.elseBlock, b, named, syms);
    if elseValue.None? {
      return None;
    }
    elseBlock := CloseArm(b, mergeBlock, mergeBlock);
    var phi := b.Emit(Phi([(thenValue.value, thenBlock), (elseValue.value, elseBlock)]));
    r := Some(phi);
  }

  lemma GenIfAs(c: Context, n: Node, st: FnState)
    requires n.If? && Compilable(n) && st.Valid()
    ensures Compilable(n.cond) && Compilable(n.thenBlock) && Compilable(n.elseBlock)
    ensures Gen(c, n, st) ==
      var (cv, st1) := Gen(c, n.cond, st);
      if cv.None? then (None, st1)
      else
        var t := |st1.blocks|;
        var (tv, st3) := Gen(c, n.thenBlock, OpenIf(cv.value, st1));
        if tv.None? then (None, st3)
        else
          var (ev, st5) := Gen(c, n.elseBlock, st3.Append(Br(t + 2)).PositionAt(t + 1));
          if ev.None? then (None, st5)
          else
            var st6 := st5.Append(Br(t + 2)).PositionAt(t + 2);
            (Some(st6.Next()), st6.Append(Phi([(tv.value, st3.cur), (ev.value, st5.cur)])))
  {
    hide GenSeq, EmitBin;
  }

  /** The test, the blocks for the arms and for what follows, and the branch; the builder enters the first arm. */
  method OpenArms(cond: Value, b: Builder) returns (thenBlock: nat, elseBlock: nat, mergeBlock: nat)
    requires b.Positioned()
    modifies b
    ensures b.Positioned() && b.fn == old(b.fn) && SameElse(old(b.funcs), b.funcs, b.fn)
    ensures b.State() == OpenIf(cond, old(b.State())) && thenBlock == |old(b.State()).blocks|
    ensures elseBlock == thenBlock + 1 && mergeBlock == thenBlock + 2
  {
    var cmp := b.Emit(FCmp(ONE, cond, ConstReal(0)));
    thenBlock := b.AppendBasicBlock();
    elseBlock := b.AppendBasicBlock();
    mergeBlock := b.AppendBasicBlock();
    var _ := b.Emit(CondBr(cmp, thenBlock, elseBlock));
    b.PositionAtEnd(thenBlock);
  }

  /**
   * The branch at the end of an arm. The arm may have moved the builder, so the block that a phi has to
   * name is the one the builder is in now.
   */
  method CloseArm(b: Builder, mergeBlock: nat, next: nat) returns (last: nat)
    requires b.Positioned() && next < |b.State().blocks|
    modifies b
    ensures b.Positioned() && b.fn == old(b.fn) && SameElse(old(b.funcs), b.funcs, b.fn)
    ensures b.State() == old(b.State()).Append(Br(mergeBlock)).PositionAt(next) && last == old(b.block)
  {
    var _ := b.Emit(Br(mergeBlock));
    last := b.block;
    b.PositionAtEnd(next);
  }

  /** `m1` has the function, so far without a body, and `f` is the place that `SetBlocks` will fill. */
  ghost predicate Declared(m: Module, p: Proto, m1: Module, f: nat) {
    && GenProto(m, p) == Some(m1) && f < |m1| && m1[f].blocks == [] && m1[f].arity == |p.params|
    && forall blocks :: SetBlocks(m1, p.name, blocks) == m1[f := m1[f].(blocks := blocks)]
  }

  /** In a module without open declarations, the declared function is a new one at the end. */
  lemma DeclaredLast(m: Module, p: Proto, m1: Module, f: nat)
    requires Declared(m, p, m1, f) && CodegenCorrect.Bodied(m)
    ensures f == |m| && m1[..f] + m1[f + 1..] == m
  {
    assert GenProto(m, p) == Some(m + [Function(p.name, |p.params|, [])]);
  }

  /** Finds the function if it is declared and has no body yet, or else adds it. */
  method Declare(p: Proto, b: Builder) returns (func: Option<nat>)
    modifies b
    ensures func.Some? <==> GenProto(old(b.funcs), p).Some?
    ensures func.Some? ==> Declared(old(b.funcs), p, b.funcs, func.value)
    ensures func.None? ==> b.funcs == old(b.funcs)
  {
    var f := GetNamedFunction(b.funcs, p.name);
    if f < |b.funcs| {
      if b.funcs[f].arity != |p.params| || |b.funcs[f].blocks| != 0 {
        return None;
      }
    } else {
      ghost var m, g := b.funcs, Function(p.name, |p.params|, []);
      f := b.AddFunction(p.name, |p.params|);
      forall blocks ensures SetBlocks(b.funcs, p.name, blocks) == b.funcs[f := b.funcs[f].(blocks := blocks)] {
        CodegenCorrect.SetBlocksLast(m, g, blocks);
        assert m + [g.(blocks := blocks)] == (m + [g])[|m| := g.(blocks := blocks)];
      }
    }
    return Some(f);
  }

  /** Declares the function, and enters its parameters into the symbol table. */
  method CodegenProto(p: Proto, b: Builder, named: Symbols) returns (func: Option<nat>)
    requires Knows(named, map[]) && b !in named.Repr
    modifies b, named.Repr
    ensures fresh(named.Repr - old(named.Repr)) && b !in named.Repr && named.Valid() && Proper(named)
    ensures func.Some? <==> GenProto(old(b.funcs), p).Some?
    ensures func.Some? ==> Knows(named, BindParams(p.params)) && Declared(old(b.funcs), p, b.funcs, func.value)
    ensures func.None? ==> b.funcs == old(b.funcs)
  {
    var f := Declare(p, b);
    if f.None? {
      return None;
    }
    ghost var m1 := b.funcs;
    hide Declared;
    var i := 0;
    while i < |p.params|
      invariant i <= |p.params| && Knows(named, BindParams(p.params[..i]))
      invariant fresh(named.Repr - old(named.Repr)) && b !in named.Repr && b.funcs == m1
    {
      assert p.params[..i + 1][..i] == p.params[..i];
      SymbolTable.Define(named.cfg, named.Model(), BindParams(p.params[..i]), p.params[i], Param(i));
      var _, _ := named.PutData(SymbolTable.CStr(p.params[i]), Param(i));
      i := i + 1;
    }
    assert p.params[..i] == p.params;
    return f;
  }

  /** One definition, in a new scope. `ok` tells whether it compiled. */
  method CodegenFuncdef(d: Def, b: Builder, named: Symbols) returns (ok: bool)
    requires Compilable(d.body) && named.Valid() && Proper(named) && b !in named.Repr
    modifies b, named.Repr
    ensures named.Valid() && Proper(named) && fresh(named.Repr - old(named.Repr)) && b !in named.Repr
    ensures ok <==> GenFunc(old(b.funcs), d).Some?
    ensures ok ==> b.funcs == GenFunc(old(b.funcs), d).value
    ensures !ok && CodegenCorrect.Bodied(old(b.funcs)) ==> b.funcs == old(b.funcs)
  {
    named.Clear();
    SymbolTable.Cleared(named.cfg, old(named.Model()));
    hide Knows, Declared, GenFunc, GenBody, GenProto, Proper, Symbols.Valid, CodegenCorrect.Bodied;
    var func := CodegenProto(d.proto, b, named);
    if func.None? {
      NoProto(old(b.funcs), d);
      return false;
    }
    if CodegenCorrect.Bodied(old(b.funcs)) {
      DeclaredLast(old(b.funcs), d.proto, b.funcs, func.value);
    }
    ok := CodegenBody(d, b, named, old(b.funcs), func.value);
  }

  lemma NoProto(m: Module, d: Def)
    requires Compilable(d.body) && GenProto(m, d.proto).None?
    ensures GenFunc(m, d).None?
  {}

  /** The body of a declared function. */
  method CodegenBody(d: Def, b: Builder, named: Symbols, ghost m: Module, func: nat) returns (ok: bool)
    requires Compilable(d.body) && Knows(named, BindParams(d.proto.params)) && b !in named.Repr
    requires Declared(m, d.proto, b.funcs, func)
    modifies b
    ensures ok <==> GenFunc(m, d).Some?
    ensures ok ==> b.funcs == GenFunc(m, d).value
    ensures func < |old(b.funcs)| && (!ok ==> b.funcs == old(b.funcs)[..func] + old(b.funcs)[func + 1..])
  {
    ghost var m1, syms := b.funcs, BindParams(d.proto.params);
    DeclaredBody(m, d, m1, func);
    hide Knows, GenFunc, Signatures, Verifier.Verified;
    b.EnterFunction(func);
    SameSignatures(m1, b.funcs, b.fn);
    var body := DoCodegen(d.body, b, named, syms);
    if body.None? {
      OnlyBlocksDiffer(m1, b.funcs, func);
      b.DeleteFunction(func);
      return false;
    }
    var _ := b.Emit(Ret(body.value));
    OnlyBlocksDiffer(m1, b.funcs, func);
    // By the rules of module Verifier, LLVMVerifyFunction accepts what gets here: its failure branch is dead.
    CodegenWellFormed.GenBodyVerified(Signatures(m1), d);
    assert Verifier.Verified(Signatures(m1), b.funcs[func].blocks, |d.proto.params|);
    return true;
  }

  lemma DeclaredBody(m: Module, d: Def, m1: Module, f: nat)
    requires Compilable(d.body) && Declared(m, d.proto, m1, f)
    ensures f < |m1| && m1[f].blocks == []
    ensures GenFunc(m, d) ==
      match GenBody(Signatures(m1), d) case None => None case Some(blocks) => Some(m1[f := m1[f].(blocks := blocks)])
  {
    hide GenBody;
  }

  /** The table compares keys byte by byte, and every key stands where it belongs. */
  ghost predicate Proper(named: Symbols)
    reads named
  {
    !named.cfg.flags.ignoreCase && TableRefinement.Inv(named.cfg, named.Model())
  }

  lemma NewProper(named: Symbols)
    requires named.Model() == TableModel.New(64) && !named.cfg.flags.ignoreCase
    ensures Proper(named)
  {
    TableRefinement.NewRefines<Value>(named.cfg, 64);
  }

  /** A whole program, definition by definition; it stops at the first that does not compile. */
  method CodegenProgram(defs: seq<Def>, hash: TableModel.Key -> nat) returns (r: Option<Module>)
    requires CompilableProgram(defs)
    ensures r == GenProgram(defs)
    ensures r.Some? <==> CodegenScope.WellScoped(defs)
    ensures r.Some? ==> CodegenWellFormed.ModuleVerified(r.value)
  {
    assert GenProgram(defs[..0]) == Some([]);
    hide *;
    CodegenScope.GenProgramSucceeds(defs);
    var cfg := TableModel.Config(hash, TableModel.Flags(false, false, true));
    var b := new Builder();
    var named := new HT.HashTable<Value>(64, cfg);
    NewProper(named);
    var i := 0;
    while i < |defs|
      invariant i <= |defs| && named.Valid() && Proper(named) && b !in named.Repr
      invariant fresh(b) && fresh(named.Repr)
      invariant GenProgram(defs[..i]) == Some(b.funcs)
    {
      GenProgramNext(defs, i);
      var ok := CodegenFuncdef(defs[i], b, named);
      if !ok {
        GenProgramStops(defs, i + 1);
        return None;
      }
      i := i + 1;
    }
    assert defs[..i] == defs;
    CodegenWellFormed.AllVerified(defs);
    return Some(b.funcs);
  }

  lemma GenProgramNext(defs: seq<Def>, i: nat)
    requires CompilableProgram(defs) && i < |defs| && GenProgram(defs[..i]).Some?
    ensures Compilable(defs[i].body) && GenProgram(defs[..i + 1]) == GenFunc(GenProgram(defs[..i]).value, defs[i])
  {
    assert defs[..i + 1][..i] == defs[..i];
  }

  /** Once a definition has failed, the program has. */
  lemma {:induction false} GenProgramStops(defs: seq<Def>, i: nat)
    requires forall j | 0 <= j < |defs| :: Compilable(defs[j].body)
    requires i <= |defs| && GenProgram(defs[..i]).None?
    ensures GenProgram(defs).None?
    decreases |defs|
  {
    hide GenFunc;
    if i < |defs| {
      var k := |defs| - 1;
      assert defs[..k][..i] == defs[..i];
      GenProgramStops(defs[..k], i);
    } else {
      assert defs[..i] == defs;
    }
  }
}
