/**
 * Code generation as a function: the value and the blocks that `do_codegen` leaves behind
 * (src/codegen.c). The methods of module Codegen are proved to compute it.
 */
module CodegenSpec {
  import opened Wrappers
  import opened Ast
  import opened Ir

  datatype Signature = Signature(name: string, arity: nat)

  function Signatures(m: Module): (sigs: seq<Signature>)
    ensures |sigs| == |m|
  {
    seq(|m|, i requires 0 <= i < |m| => Signature(m[i].name, m[i].arity))
  }

  /** How many parameters the first function called `name` takes. */
  function ArityOf(sigs: seq<Signature>, name: string): Option<nat> {
    if |sigs| == 0 then None
    else if sigs[0].name == name then Some(sigs[0].arity)
    else ArityOf(sigs[1..], name)
  }

  /** What stays fixed while one body is compiled: the symbol table and the known functions. */
  datatype Context = Context(named: map<string, Value>, sigs: seq<Signature>)

  /** The function under construction: its blocks, and the block the builder appends to. */
  datatype FnState = FnState(blocks: seq<BasicBlock>, cur: nat)
  {
    predicate Valid() {
      cur < |blocks|
    }

    /** The value that the next appended instruction will be. */
    function Next(): Value
      requires Valid()
    {
      Reg(cur, |blocks[cur]|)
    }

    function Append(i: Instr): (st: FnState)
      requires Valid()
      ensures st.Valid()
    {
      this.(blocks := blocks[cur := blocks[cur] + [i]])
    }

    function AppendBlock(): (st: FnState) {
      this.(blocks := blocks + [[]])
    }

    function PositionAt(b: nat): (st: FnState) {
      this.(cur := b)
    }
  }

  function BinInstr(op: BinOp, a: Value, b: Value): Instr {
    match op
    case Add => FAdd(a, b)
    case Sub => FSub(a, b)
    case Mul => FMul(a, b)
    case Div => FDiv(a, b)
    case CmpLt => FCmp(ULT, a, b)
  }

  /** The instructions of a binary operator; a comparison is cast back to a double. */
  function EmitBin(op: BinOp, a: Value, b: Value, st: FnState): (r: (Value, FnState))
    requires st.Valid()
    ensures r.1.Valid()
  {
    var st1 := st.Append(BinInstr(op, a, b));
    if op == CmpLt then (st1.Next(), st1.Append(UIToFP(st.Next()))) else (st.Next(), st1)
  }

  /** The test of a condition against zero, the three new blocks, and the branch to the arms. */
  function OpenIf(cond: Value, st: FnState): (r: FnState)
    requires st.Valid()
    ensures r.Valid() && r.cur == |st.blocks|
    ensures |r.blocks| == |st.blocks| + 3
  {
    var n := |st.blocks|;
    st.Append(FCmp(ONE, cond, ConstReal(0)))
      .AppendBlock().AppendBlock().AppendBlock()
      .Append(CondBr(st.Next(), n, n + 1))
      .PositionAt(n)
  }

  function Gen(c: Context, e: Node, st: FnState): (r: (Option<Value>, FnState))
    requires Compilable(e) && st.Valid()
    ensures r.1.Valid() && |st.blocks| <= |r.1.blocks|
    decreases e, 1
  {
    match e
    case Dbl(k) => (Some(ConstReal(k)), st)
    case Var(x) => (if x in c.named then Some(c.named[x]) else None, st)
    case Block(stmts) =>
      var (vs, st1) := GenSeq(c, stmts, st);
      (if vs.Some? then Some(vs.value[|stmts| - 1]) else None, st1)
    case Bin(op, left, right) =>
      // The right operand is compiled even when the left one has failed.
      var (lhs, st1) := Gen(c, left, st);
      var (rhs, st2) := Gen(c, right, st1);
      if lhs.None? || rhs.None? then (None, st2)
      else
        var (v, st3) := EmitBin(op, lhs.value, rhs.value, st2);
        (Some(v), st3)
    case Call(f, args) =>
      if ArityOf(c.sigs, f) != Some(|args|) then (None, st)
      else
        var (vs, st1) := GenSeq(c, args, st);
        if vs.None? then (None, st1)
        else (Some(st1.Next()), st1.Append(CallFn(f, vs.value)))
    case If(cond, thenBlock, elseBlock) =>
      var (cv, st1) := Gen(c, cond, st);
      if cv.None? then (None, st1)
      else
        var st2 := OpenIf(cv.value, st1);
        var thenStart := |st1.blocks|;
        var (tv, st3) := Gen(c, thenBlock, st2);
        if tv.None? then (None, st3)
        else
          var st4 := st3.Append(Br(thenStart + 2));
          var (ev, st5) := Gen(c, elseBlock, st4.PositionAt(thenStart + 1));
          if ev.None? then (None, st5)
          else
            var st6 := st5.Append(Br(thenStart + 2)).PositionAt(thenStart + 2);
            (Some(st6.Next()), st6.Append(Phi([(tv.value, st3.cur), (ev.value, st5.cur)])))
  }

  /** Compiles trees left to right, and stops at the first that fails. */
  function GenSeq(c: Context, es: seq<Node>, st: FnState): (r: (Option<seq<Value>>, FnState))
    requires forall i | 0 <= i < |es| :: Compilable(es[i])
    requires st.Valid()
    ensures r.1.Valid() && |st.blocks| <= |r.1.blocks|
    ensures r.0.Some? ==> |r.0.value| == |es|
    decreases es, 0
  {
    if |es| == 0 then (Some([]), st)
    else
      var k := |es| - 1;
      var (vs, st1) := GenSeq(c, es[..k], st);
      if vs.None? then (None, st1)
      else
        var (v, st2) := Gen(c, es[k], st1);
        if v.None? then (None, st2) else (Some(vs.value + [v.value]), st2)
  }

  /** The symbol table of a function: each parameter name maps to the last parameter so named. */
  function BindParams(params: seq<string>): (named: map<string, Value>) {
    if |params| == 0 then map[]
    else
      var k := |params| - 1;
      BindParams(params[..k])[params[k] := Param(k)]
  }

  const ENTRY := FnState([[]], 0)

  /** Declares the function; fails when its name is taken by a function with a body. */
  function GenProto(m: Module, p: Proto): (r: Option<Module>) {
    match FindFunction(m, p.name)
    case None => Some(m + [Function(p.name, |p.params|, [])])
    case Some(f) => if f.arity != |p.params| || |f.blocks| != 0 then None else Some(m)
  }

  /** The finished blocks of one function, compiled against the functions known so far. */
  function GenBody(sigs: seq<Signature>, d: Def): (r: Option<seq<BasicBlock>>)
    requires Compilable(d.body)
  {
    var (v, st) := Gen(Context(BindParams(d.proto.params), sigs), d.body, ENTRY);
    if v.None? then None else Some(st.Append(Ret(v.value)).blocks)
  }

  /** Gives a body to the first function called `name`. */
  function SetBlocks(m: Module, name: string, blocks: seq<BasicBlock>): (r: Module)
    ensures |r| == |m|
  {
    if |m| == 0 then []
    else if m[0].name == name then [m[0].(blocks := blocks)] + m[1..]
    else [m[0]] + SetBlocks(m[1..], name, blocks)
  }

  function GenFunc(m: Module, d: Def): (r: Option<Module>)
    requires Compilable(d.body)
  {
    match GenProto(m, d.proto)
    case None => None
    case Some(m1) =>
      match GenBody(Signatures(m1), d)
      case None => None
      case Some(blocks) => Some(SetBlocks(m1, d.proto.name, blocks))
  }

  /** A program is compiled definition by definition, into an initially empty module. */
  function GenProgram(defs: seq<Def>): (r: Option<Module>)
    requires forall i | 0 <= i < |defs| :: Compilable(defs[i].body)
  {
    if |defs| == 0 then Some([])
    else
      var k := |defs| - 1;
      match GenProgram(defs[..k])
      case None => None
      case Some(m) => GenFunc(m, defs[k])
  }
}
