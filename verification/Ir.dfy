/**
 * The part of LLVM IR that the code generator emits, and a small-step machine that runs it
 * (LLVM Language Reference Manual, sections "Functions", "'phi' Instruction" and
 * "'fcmp' Instruction").
 */
module Ir {
  import opened Wrappers
  import opened Semantics

  /** An operand. An instruction is its own value: `Reg(blk, pos)` is the one at that place. */
  datatype Value = ConstReal(n: nat) | Param(i: nat) | Reg(blk: nat, pos: nat)

  datatype RealPredicate = ULT | ONE

  datatype Instr =
    | FAdd(a: Value, b: Value)
    | FSub(a: Value, b: Value)
    | FMul(a: Value, b: Value)
    | FDiv(a: Value, b: Value)
    | FCmp(pred: RealPredicate, a: Value, b: Value)
    | UIToFP(a: Value)
    | CallFn(callee: string, args: seq<Value>)
    | Phi(incoming: seq<(Value, nat)>)
    | Br(target: nat)
    | CondBr(cond: Value, ifTrue: nat, ifFalse: nat)
    | Ret(val: Value)
  {
    predicate IsTerminator() {
      Br? || CondBr? || Ret?
    }

    /** The blocks control may pass to. */
    function Targets(): set<nat> {
      match this
      case Br(t) => {t}
      case CondBr(_, t, e) => {t, e}
      case _ => {}
    }
  }

  type BasicBlock = seq<Instr>

  datatype Function = Function(name: string, arity: nat, blocks: seq<BasicBlock>)

  type Module = seq<Function>

  function FindFunction(m: Module, name: string): (r: Option<Function>)
    ensures r.Some? ==> r.value in m && r.value.name == name
  {
    if |m| == 0 then None
    else if m[0].name == name then Some(m[0])
    else FindFunction(m[1..], name)
  }

  /** A register holds a double, or the bool of a comparison. */
  datatype RtVal = D(d: Double) | B(b: bool)

  datatype Frame = Frame(fn: Function, args: seq<Double>, blk: nat, pc: nat, prev: nat, regs: map<(nat, nat), RtVal>)
  {
    function Operand(ops: FloatOps, v: Value): Option<RtVal> {
      match v
      case ConstReal(n) => Some(D(ops.lit(n)))
      case Param(i) => if i < |args| then Some(D(args[i])) else None
      case Reg(b, p) => if (b, p) in regs then Some(regs[(b, p)]) else None
    }

    /** The value of an operand that has to be a double. */
    function Real(ops: FloatOps, v: Value): Option<Double> {
      match Operand(ops, v)
      case Some(D(d)) => Some(d)
      case _ => None
    }

    /** Stores the result of the current instruction and moves past it. */
    function Define(v: RtVal): Frame {
      this.(pc := pc + 1, regs := regs[(blk, pc) := v])
    }

    function Jump(target: nat): Frame {
      this.(blk := target, pc := 0, prev := blk)
    }
  }

  /** `callers` are the frames waiting for a call to return, innermost first. */
  datatype State = Running(frame: Frame, callers: seq<Frame>) | Returned(v: Double) | Stuck

  function Reals(ops: FloatOps, f: Frame, vs: seq<Value>): (r: Option<seq<Double>>)
    ensures r.Some? ==> |r.value| == |vs|
  {
    if |vs| == 0 then Some([])
    else
      var k := |vs| - 1;
      match (Reals(ops, f, vs[..k]), f.Real(ops, vs[k]))
      case (Some(ds), Some(d)) => Some(ds + [d])
      case _ => None
  }

  /** The operand a phi takes when control comes from block `prev`. */
  function Incoming(incoming: seq<(Value, nat)>, prev: nat): Option<Value> {
    if |incoming| == 0 then None
    else if incoming[0].1 == prev then Some(incoming[0].0)
    else Incoming(incoming[1..], prev)
  }

  function Assign(f: Frame, callers: seq<Frame>, v: Option<RtVal>): State {
    if v.Some? then Running(f.Define(v.value), callers) else Stuck
  }

  function Arith(ops: FloatOps, f: Frame, op: (Double, Double) -> Double, a: Value, b: Value): Option<RtVal> {
    match (f.Real(ops, a), f.Real(ops, b))
    case (Some(x), Some(y)) => Some(D(op(x, y)))
    case _ => None
  }

  function Compare(ops: FloatOps, f: Frame, op: (Double, Double) -> bool, a: Value, b: Value): Option<RtVal> {
    match (f.Real(ops, a), f.Real(ops, b))
    case (Some(x), Some(y)) => Some(B(op(x, y)))
    case _ => None
  }

  /** The double of an i1. */
  function FromBool(ops: FloatOps, b: bool): Double {
    if b then ops.lit(1) else ops.lit(0)
  }

  function EntryFrame(fn: Function, args: seq<Double>): Frame {
    Frame(fn, args, 0, 0, 0, map[])
  }

  /** One instruction. `Returned` and `Stuck` are final. */
  function Step(ops: FloatOps, m: Module, s: State): State {
    if !s.Running? then s
    else
      var f, callers := s.frame, s.callers;
      if !(f.blk < |f.fn.blocks| && f.pc < |f.fn.blocks[f.blk]|) then Stuck
      else
        match f.fn.blocks[f.blk][f.pc]
        case FAdd(a, b) => Assign(f, callers, Arith(ops, f, ops.add, a, b))
        case FSub(a, b) => Assign(f, callers, Arith(ops, f, ops.sub, a, b))
        case FMul(a, b) => Assign(f, callers, Arith(ops, f, ops.mul, a, b))
        case FDiv(a, b) => Assign(f, callers, Arith(ops, f, ops.div, a, b))
        case FCmp(ULT, a, b) => Assign(f, callers, Compare(ops, f, ops.ult, a, b))
        case FCmp(ONE, a, b) => Assign(f, callers, Compare(ops, f, ops.one, a, b))
        case UIToFP(a) =>
          (match f.Operand(ops, a)
           case Some(B(b)) => Running(f.Define(D(FromBool(ops, b))), callers)
           case _ => Stuck)
        case CallFn(callee, args) =>
          (match (FindFunction(m, callee), Reals(ops, f, args))
           case (Some(g), Some(vs)) =>
             if g.arity == |vs| then Running(EntryFrame(g, vs), [f] + callers) else Stuck
           case _ => Stuck)
        case Phi(incoming) =>
          (match Incoming(incoming, f.prev)
           case Some(v) => Assign(f, callers, f.Operand(ops, v))
           case None => Stuck)
        case Br(target) => Running(f.Jump(target), callers)
        case CondBr(c, t, e) =>
          (match f.Operand(ops, c)
           case Some(B(b)) => Running(f.Jump(if b then t else e), callers)
           case _ => Stuck)
        case Ret(v) =>
          (match f.Real(ops, v)
           case None => Stuck
           case Some(d) =>
             if |callers| == 0 then Returned(d)
             else Running(callers[0].Define(D(d)), callers[1..]))
  }

  function Steps(ops: FloatOps, m: Module, s: State, n: nat): State
    decreases n
  {
    if n == 0 then s else Steps(ops, m, Step(ops, m, s), n - 1)
  }

  /** The state in which function `f` of the module is about to run on `args`. */
  function Start(m: Module, f: string, args: seq<Double>): State {
    match FindFunction(m, f)
    case Some(g) => if g.arity == |args| then Running(EntryFrame(g, args), []) else Stuck
    case None => Stuck
  }

  lemma {:induction false} StepsAdd(ops: FloatOps, m: Module, s: State, i: nat, j: nat)
    ensures Steps(ops, m, s, i + j) == Steps(ops, m, Steps(ops, m, s, i), j)
    decreases i
  {
    if i > 0 {
      StepsAdd(ops, m, Step(ops, m, s), i - 1, j);
    }
  }

  lemma {:induction false} StepsFinal(ops: FloatOps, m: Module, s: State, n: nat)
    requires !s.Running?
    ensures Steps(ops, m, s, n) == s
    decreases n
  {
    if n > 0 {
      StepsFinal(ops, m, s, n - 1);
    }
  }

  /** Once a run has ended it stays where it ended. */
  lemma FinalStays(ops: FloatOps, m: Module, s: State, i: nat, j: nat)
    requires i <= j && !Steps(ops, m, s, i).Running?
    ensures Steps(ops, m, s, j) == Steps(ops, m, s, i)
  {
    StepsAdd(ops, m, s, i, j - i);
    StepsFinal(ops, m, Steps(ops, m, s, i), j - i);
  }
}
