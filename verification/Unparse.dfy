/** Writing trees back as source text, with the fewest parentheses, and parsing the text again. */
module Unparse {
  import opened Ast
  import opened ParseSpec
  import opened Grammar
  import opened ParserCorrect

  /** The trees the parser can build as an expression. */
  predicate Expr(n: Node)
    decreases n, 0
  {
    match n
    case Null => false
    case Dbl(_) => true
    case Var(_) => true
    case Bin(_, left, right) => Expr(left) && Expr(right)
    case Call(_, args) => |args| <= 16 && Exprs(args)
    case If(cond, thenBlock, elseBlock) =>
      && Expr(cond) && thenBlock.Block? && Exprs(thenBlock.stmts)
      && (elseBlock == Null || (elseBlock.Block? && Exprs(elseBlock.stmts)))
    case Block(_) => false
    case FuncDef(proto, body) => |proto.params| <= 15 && body.Block? && Exprs(body.stmts)
  }

  predicate Exprs(ns: seq<Node>)
    decreases ns, 0
  {
    |ns| > 0 ==> Expr(ns[0]) && Exprs(ns[1..])
  }

  /** A comma after each item but the last. */
  function Commas(n: nat): (r: seq<bool>)
    ensures |r| == n
  {
    if n == 0 then [] else if n == 1 then [false] else [true] + Commas(n - 1)
  }

  function Print(n: Node): Cst
    requires Expr(n)
    decreases n, 0
  {
    match n
    case Dbl(v) => CNum(v)
    case Var(x) => CId(x)
    case Bin(op, l, r) => CBin(op, Operand(l, OpLbp(op)), Operand(r, OpLbp(op) + 1))
    case Call(callee, args) => CCall(CId(callee), PrintAll(args), Commas(|args|))
    case If(cond, thenBlock, elseBlock) =>
      CIf(Print(cond), PrintAll(thenBlock.stmts), elseBlock.Block?, if elseBlock.Block? then PrintAll(elseBlock.stmts) else [], [])
    case FuncDef(proto, body) => CDef(proto.name, proto.params, Commas(|proto.params|), true, PrintAll(body.stmts))
  }

  /** In parentheses only where the operator binds too loosely. */
  function Operand(n: Node, level: nat): Cst
    requires Expr(n)
    decreases n, 1
  {
    if n.Bin? && OpLbp(n.op) < level then CParen(Print(n)) else Print(n)
  }

  function PrintAll(ns: seq<Node>): (r: seq<Cst>)
    requires Exprs(ns)
    ensures |r| == |ns|
    decreases ns, 0
  {
    if |ns| == 0 then [] else [Print(ns[0])] + PrintAll(ns[1..])
  }

  lemma {:induction false} PrintLayered(n: Node)
    requires Expr(n)
    ensures Layered(Print(n), if n.Bin? then OpLbp(n.op) else 10) && Tree(Print(n)) == n
    decreases n, 0
  {
    match n
    case Bin(op, l, r) =>
      OperandLayered(l, OpLbp(op));
      OperandLayered(r, OpLbp(op) + 1);
    case Call(callee, args) =>
      PrintAllLayered(args);
      CommasLayered(PrintAll(args));
    case If(cond, thenBlock, elseBlock) =>
      PrintLayered(cond);
      LayeredLower(Print(cond), if cond.Bin? then OpLbp(cond.op) else 10, 1);
      PrintAllLayered(thenBlock.stmts);
      if elseBlock.Block? {
        PrintAllLayered(elseBlock.stmts);
      }
    case FuncDef(proto, body) => PrintAllLayered(body.stmts);
    case _ =>
  }

  lemma {:induction false} OperandLayered(n: Node, level: nat)
    requires Expr(n) && level <= 4
    ensures Layered(Operand(n, level), level) && Tree(Operand(n, level)) == n
    decreases n, 1
  {
    PrintLayered(n);
    LayeredLower(Print(n), if n.Bin? then OpLbp(n.op) else 10, if n.Bin? && OpLbp(n.op) < level then 1 else level);
  }

  lemma {:induction false} PrintAllLayered(ns: seq<Node>)
    requires Exprs(ns)
    ensures StmtsLayered(PrintAll(ns)) && Trees(PrintAll(ns)) == ns && !Cut(PrintAll(ns)) && IsBlock(PrintAll(ns))
    decreases ns, 0
  {
    if |ns| > 0 {
      PrintLayered(ns[0]);
      LayeredLower(Print(ns[0]), if ns[0].Bin? then OpLbp(ns[0].op) else 10, 1);
      PrintAllLayered(ns[1..]);
      assert PrintAll(ns)[1..] == PrintAll(ns[1..]);
      assert [ns[0]] + ns[1..] == ns;
    }
    LayeredNotCut(PrintAll(ns));
    BlockOfPowers(PrintAll(ns));
  }

  lemma LayeredNotCut(cs: seq<Cst>)
    requires StmtsLayered(cs)
    ensures !Cut(cs)
  {
    StmtsLayeredClean(cs);
    CleanNotCut(cs);
  }

  /** With all commas written, arguments are as free as statements. */
  lemma {:induction false} CommasLayered(cs: seq<Cst>)
    requires StmtsLayered(cs)
    ensures ArgsLayered(cs, Commas(|cs|))
    decreases |cs|
  {
    if |cs| > 0 {
      CommasLayered(cs[1..]);
      assert Commas(|cs|)[1..] == Commas(|cs| - 1);
    }
  }

  /** The pairs of parentheses around sub-expressions. */
  function Parens(c: Cst): nat
    decreases c, 0
  {
    match c
    case CNum(_) => 0
    case CId(_) => 0
    case CParen(e) => 1 + Parens(e)
    case CCall(callee, args, _) => Parens(callee) + ParensIn(args)
    case CBin(_, l, r) => Parens(l) + Parens(r)
    case CIf(cond, thenStmts, hasElse, elseStmts, _) =>
      Parens(cond) + ParensIn(thenStmts) + if hasElse then ParensIn(elseStmts) else 0
    case CDef(_, _, _, _, body) => ParensIn(body)
    case CBad(_) => 0
  }

  function ParensIn(cs: seq<Cst>): nat
    decreases cs, 0
  {
    if |cs| == 0 then 0 else Parens(cs[0]) + ParensIn(cs[1..])
  }

  lemma {:induction false} FewestAt(c: Cst, level: nat)
    requires Layered(c, level)
    ensures Expr(Tree(c)) && Parens(Operand(Tree(c), level)) <= Parens(c)
    decreases c, 0
  {
    match c
    case CParen(e) => FewestAt(e, 1);
    case CCall(callee, args, commas) => FewestInArgs(args, commas);
    case CBin(op, l, r) =>
      FewestAt(l, OpLbp(op));
      FewestAt(r, OpLbp(op) + 1);
    case CIf(cond, thenStmts, hasElse, elseStmts, _) =>
      FewestAt(cond, 1);
      assert Operand(Tree(cond), 1) == Print(Tree(cond));
      FewestIn(thenStmts);
      if hasElse {
        FewestIn(elseStmts);
      }
    case CDef(_, _, _, _, body) => FewestIn(body);
    case _ =>
  }

  lemma {:induction false} FewestIn(cs: seq<Cst>)
    requires StmtsLayered(cs)
    ensures Exprs(Trees(cs)) && ParensIn(PrintAll(Trees(cs))) <= ParensIn(cs) && !Cut(cs)
    decreases cs, 0
  {
    LayeredNotCut(cs);
    if |cs| > 0 {
      FewestAt(cs[0], 1);
      FewestIn(cs[1..]);
      assert Operand(Tree(cs[0]), 1) == Print(Tree(cs[0]));
      assert Trees(cs)[1..] == Trees(cs[1..]);
      assert PrintAll(Trees(cs))[1..] == PrintAll(Trees(cs[1..]));
    }
  }

  lemma {:induction false} FewestInArgs(cs: seq<Cst>, commas: seq<bool>)
    requires ArgsLayered(cs, commas)
    ensures Exprs(Trees(cs)) && ParensIn(PrintAll(Trees(cs))) <= ParensIn(cs) && !Cut(cs)
    decreases cs, 0
  {
    ArgsLayeredClean(cs, commas);
    CleanNotCut(cs);
    if |cs| > 0 {
      FewestAt(cs[0], 1);
      FewestInArgs(cs[1..], commas[1..]);
      assert Operand(Tree(cs[0]), 1) == Print(Tree(cs[0]));
      assert Trees(cs)[1..] == Trees(cs[1..]);
      assert PrintAll(Trees(cs))[1..] == PrintAll(Trees(cs[1..]));
    }
  }

  /** What is printed is an expression of the language, and no other derivation of the same tree has fewer parentheses. */
  lemma FewestParens(c: Cst)
    requires IsExpr(c)
    ensures Expr(Tree(c)) && IsExpr(Print(Tree(c))) && Tree(Print(Tree(c))) == Tree(c)
    ensures Parens(Print(Tree(c))) <= Parens(c)
  {
    LayersOfPowers(c);
    FewestAt(c, 1);
    OperandLayered(Tree(c), 1);
    assert Operand(Tree(c), 1) == Print(Tree(c));
    LayersOfPowers(Print(Tree(c)));
  }

  /** Parsing undoes printing, and consumes every token. */
  lemma ParsingInvertsPrinting(stmts: seq<Node>)
    requires Exprs(stmts)
    ensures Program(YieldStmts(PrintAll(stmts), [])) == (Block(stmts), Live([], false))
  {
    PrintAllLayered(stmts);
    var toks := YieldStmts(PrintAll(stmts), []);
    assert Sentence(PrintAll(stmts), toks, Block(stmts), []);
    ProgramIsSentence(toks, Block(stmts), []);
  }
}
