/**
 * What a lilc program means, independently of how it is compiled: a big-step evaluator over
 * trees whose fuel bounds the depth of nested calls.
 */
module Semantics {
  import opened Wrappers
  import opened Ast

  /** IEEE doubles and their operations stay abstract: every theorem holds for all of them. */
  type Double(!new, 0)

  datatype FloatOps = FloatOps(
    lit: nat -> Double,
    add: (Double, Double) -> Double,
    sub: (Double, Double) -> Double,
    mul: (Double, Double) -> Double,
    div: (Double, Double) -> Double,
    ult: (Double, Double) -> bool,  // unordered or less than
    one: (Double, Double) -> bool)  // ordered and not equal

  /** `Timeout`: the call depth was not enough. `Wrong`: the program has no meaning. */
  datatype Outcome<+T> = Done(value: T) | Timeout | Wrong

  /** A comparison gives the double 1 or 0. */
  function Apply(ops: FloatOps, op: BinOp, a: Double, b: Double): Double {
    match op
    case Add => ops.add(a, b)
    case Sub => ops.sub(a, b)
    case Mul => ops.mul(a, b)
    case Div => ops.div(a, b)
    case CmpLt => if ops.ult(a, b) then ops.lit(1) else ops.lit(0)
  }

  /** Arguments by parameter name; of two parameters with one name the later wins. */
  function Bind(params: seq<string>, args: seq<Double>): (env: map<string, Double>)
    requires |params| == |args|
  {
    if |params| == 0 then map[]
    else
      var k := |params| - 1;
      Bind(params[..k], args[..k])[params[k] := args[k]]
  }

  function FindDef(defs: seq<Def>, name: string): (d: Option<Def>) {
    if |defs| == 0 then None
    else if defs[0].proto.name == name then Some(defs[0])
    else FindDef(defs[1..], name)
  }

  function Eval(ops: FloatOps, defs: seq<Def>, env: map<string, Double>, n: Node, fuel: nat): Outcome<Double>
    decreases fuel, 0, n, 1
  {
    match n
    case Dbl(k) => Done(ops.lit(k))
    case Var(x) => if x in env then Done(env[x]) else Wrong
    case Bin(op, left, right) =>
      (match Eval(ops, defs, env, left, fuel)
       case Done(a) =>
         (match Eval(ops, defs, env, right, fuel)
          case Done(b) => Done(Apply(ops, op, a, b))
          case Timeout => Timeout
          case Wrong => Wrong)
       case Timeout => Timeout
       case Wrong => Wrong)
    case Call(f, args) =>
      (match EvalSeq(ops, defs, env, args, fuel)
       case Done(vs) => if fuel == 0 then Timeout else Invoke(ops, defs, f, vs, fuel - 1)
       case Timeout => Timeout
       case Wrong => Wrong)
    case If(cond, thenBlock, elseBlock) =>
      (match Eval(ops, defs, env, cond, fuel)
       case Done(c) =>
         if ops.one(c, ops.lit(0)) then Eval(ops, defs, env, thenBlock, fuel)
         else Eval(ops, defs, env, elseBlock, fuel)
       case Timeout => Timeout
       case Wrong => Wrong)
    case Block(stmts) =>
      (match EvalSeq(ops, defs, env, stmts, fuel)
       case Done(vs) => if |vs| > 0 then Done(vs[|vs| - 1]) else Wrong
       case Timeout => Timeout
       case Wrong => Wrong)
    case FuncDef(_, _) => Wrong
    case Null => Wrong
  }

  /** Evaluates left to right, and stops at the first tree that gives no value. */
  function EvalSeq(ops: FloatOps, defs: seq<Def>, env: map<string, Double>, ns: seq<Node>, fuel: nat): (r: Outcome<seq<Double>>)
    ensures r.Done? ==> |r.value| == |ns|
    decreases fuel, 0, ns, 0
  {
    if |ns| == 0 then Done([])
    else
      var k := |ns| - 1;
      match EvalSeq(ops, defs, env, ns[..k], fuel)
      case Done(vs) =>
        (match Eval(ops, defs, env, ns[k], fuel)
         case Done(v) => Done(vs + [v])
         case Timeout => Timeout
         case Wrong => Wrong)
      case Timeout => Timeout
      case Wrong => Wrong
  }

  /** Calls the function called `f`. */
  function Invoke(ops: FloatOps, defs: seq<Def>, f: string, args: seq<Double>, fuel: nat): Outcome<Double>
    decreases fuel, 1
  {
    match FindDef(defs, f)
    case None => Wrong
    case Some(d) =>
      if |d.proto.params| != |args| then Wrong
      else Eval(ops, defs, Bind(d.proto.params, args), d.body, fuel)
  }
}
