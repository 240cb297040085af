/**
 * What LLVM's function verifier demands of a finished function (LLVM Language Reference Manual,
 * sections "Functions", "Well-Formedness", "'phi' Instruction" and the sections of the instructions for their
 * types), stated over control-flow paths.
 */
module Verifier {
  import opened Wrappers
  import opened Ir
  import opened CodegenSpec

  function AllTargets(b: BasicBlock): set<nat> {
    if |b| == 0 then {} else AllTargets(b[..|b| - 1]) + b[|b| - 1].Targets()
  }

  function Preds(blocks: seq<BasicBlock>, b: nat): set<nat> {
    set p | 0 <= p < |blocks| && b in AllTargets(blocks[p])
  }

  /** No terminator yet: more code may follow. */
  predicate Open(b: BasicBlock) {
    forall i | 0 <= i < |b| :: !b[i].IsTerminator()
  }

  /** Exactly one terminator, in last position. */
  predicate Terminated(b: BasicBlock) {
    |b| > 0 && b[|b| - 1].IsTerminator() && Open(b[..|b| - 1])
  }

  predicate TargetsValid(blocks: seq<BasicBlock>, b: nat)
    requires b < |blocks|
  {
    forall t | t in AllTargets(blocks[b]) :: 0 < t < |blocks|
  }

  /** The operands of an instruction that is not a phi. */
  function Operands(i: Instr): set<Value> {
    match i
    case FAdd(a, b) => {a, b}
    case FSub(a, b) => {a, b}
    case FMul(a, b) => {a, b}
    case FDiv(a, b) => {a, b}
    case FCmp(_, a, b) => {a, b}
    case UIToFP(a) => {a}
    case CallFn(_, args) => set v | v in args
    case CondBr(c, _, _) => {c}
    case Ret(v) => {v}
    case _ => {}
  }

  /** A phi stands first in its block and has one operand for each predecessor, and no others. */
  predicate PhiExact(blocks: seq<BasicBlock>, b: nat)
    requires b < |blocks|
  {
    forall k | 0 <= k < |blocks[b]| && blocks[b][k].Phi? ::
      k == 0 && IncomingExact(blocks[b][k].incoming, Preds(blocks, b))
  }

  predicate IncomingExact(incoming: seq<(Value, nat)>, preds: set<nat>) {
    && (forall i | 0 <= i < |incoming| :: incoming[i].1 in preds)
    && (forall p | p in preds :: exists i | 0 <= i < |incoming| :: incoming[i].1 == p)
    && (forall i, j | 0 <= i < j < |incoming| :: incoming[i].1 != incoming[j].1)
  }

  /** `path` leads from the entry block to block `b`. */
  ghost predicate IsPath(blocks: seq<BasicBlock>, path: seq<nat>, b: nat) {
    && |path| > 0 && path[0] == 0 && path[|path| - 1] == b
    && forall i | 0 <= i < |path| - 1 :: path[i] in Preds(blocks, path[i + 1])
  }

  ghost predicate Dominates(blocks: seq<BasicBlock>, d: nat, b: nat) {
    forall path | IsPath(blocks, path, b) :: d in path
  }

  /** A constant, a parameter of the function, or a register that some instruction defines. */
  predicate Exists(blocks: seq<BasicBlock>, arity: nat, v: Value) {
    match v
    case ConstReal(_) => true
    case Param(i) => i < arity
    case Reg(b, p) => b < |blocks| && p < |blocks[b]| && !blocks[b][p].IsTerminator()
  }

  /** The value of `v` is there when control reaches instruction `k` of block `b`, on every path. */
  ghost predicate AvailableAt(blocks: seq<BasicBlock>, arity: nat, v: Value, b: nat, k: nat) {
    Exists(blocks, arity, v) &&
    (v.Reg? ==> (v.blk == b && v.pos < k) || (v.blk != b && Dominates(blocks, v.blk, b)))
  }

  /** The operand of a phi is there when control leaves the block it comes from. */
  ghost predicate IncomingAvailable(blocks: seq<BasicBlock>, arity: nat, inc: (Value, nat)) {
    inc.1 < |blocks| && AvailableAt(blocks, arity, inc.0, inc.1, |blocks[inc.1]|)
  }

  ghost predicate UsesAvailable(blocks: seq<BasicBlock>, arity: nat, b: nat, k: nat)
    requires b < |blocks| && k < |blocks[b]|
  {
    var i := blocks[b][k];
    && (forall v | v in Operands(i) :: AvailableAt(blocks, arity, v, b, k))
    && (i.Phi? ==> forall j | 0 <= j < |i.incoming| :: IncomingAvailable(blocks, arity, i.incoming[j]))
  }

  // ---------- Types ----------

  /** The types of the emitted instructions; a terminator has no value. */
  datatype ValueType = DoubleType | I1 | NoValue

  function ResultType(i: Instr): ValueType {
    if i.IsTerminator() then NoValue else if i.FCmp? then I1 else DoubleType
  }

  function TypeOf(blocks: seq<BasicBlock>, v: Value): ValueType {
    match v
    case Reg(b, p) => if b < |blocks| && p < |blocks[b]| then ResultType(blocks[b][p]) else NoValue
    case _ => DoubleType
  }

  /** The operands have the types the instruction takes; a callee is known, and takes that many arguments. */
  predicate WellTyped(blocks: seq<BasicBlock>, sigs: seq<Signature>, i: Instr) {
    match i
    case UIToFP(a) => TypeOf(blocks, a) == I1
    case CondBr(c, _, _) => TypeOf(blocks, c) == I1
    case Phi(incoming) => forall j | 0 <= j < |incoming| :: TypeOf(blocks, incoming[j].0) == DoubleType
    case CallFn(f, args) =>
      ArityOf(sigs, f) == Some(|args|) && forall j | 0 <= j < |args| :: TypeOf(blocks, args[j]) == DoubleType
    case _ => forall v | v in Operands(i) :: TypeOf(blocks, v) == DoubleType
  }

  predicate AllTyped(blocks: seq<BasicBlock>, sigs: seq<Signature>) {
    forall b, k | 0 <= b < |blocks| && 0 <= k < |blocks[b]| :: WellTyped(blocks, sigs, blocks[b][k])
  }

  // ---------- The verifier ----------

  /** The blocks end and join as they must, and every definition comes before its uses. */
  ghost predicate Structured(blocks: seq<BasicBlock>, arity: nat) {
    && |blocks| > 0
    && (forall b | 0 <= b < |blocks| :: Terminated(blocks[b]) && TargetsValid(blocks, b) && PhiExact(blocks, b))
    && forall b, k | 0 <= b < |blocks| && 0 <= k < |blocks[b]| :: UsesAvailable(blocks, arity, b, k)
  }

  /** The function passes the verifier, in a module with the functions of `sigs`. */
  ghost predicate Verified(sigs: seq<Signature>, blocks: seq<BasicBlock>, arity: nat) {
    Structured(blocks, arity) && AllTyped(blocks, sigs)
  }
}
