/**
 * The grammar the parser accepts, as derivation trees: binary operators in layers, left-associative in
 * each; the atoms that src/parse.c takes as operands; commas that may be left out. Derivations also have
 * the forms of what the parser fails on and reads past, so that all it accepts can be described.
 */
module Grammar {
  import opened Ast
  import opened LexSpec
  import opened ParseSpec

  /**
   * The error forms: `CBad`, a token that starts no operand; a call whose last argument is NULL, and which
   * ends there; the statements `again` that are read after an `else` block that failed; and a definition
   * that is not `whole`, because it ends where its parameters do not go on. A block that failed ends with a
   * NULL statement.
   */
  datatype Cst =
    | CNum(val: nat)
    | CId(name: string)
    | CParen(inner: Cst)
    | CCall(callee: Cst, args: seq<Cst>, commas: seq<bool>)
    | CBin(op: BinOp, left: Cst, right: Cst)
    | CIf(cond: Cst, thenStmts: seq<Cst>, hasElse: bool, elseStmts: seq<Cst>, again: seq<Cst>)
    | CDef(name: string, params: seq<string>, commas: seq<bool>, whole: bool, body: seq<Cst>)
    | CBad(tok: Token)

  // ---------- Trees ----------

  /** The syntax tree of a derivation, or NULL. */
  function Tree(c: Cst): Node
    decreases c, 1
  {
    match c
    case CNum(v) => Dbl(v)
    case CId(x) => Var(x)
    case CParen(e) => Tree(e)
    case CCall(callee, args, _) =>
      if Cut(args) then Null else Call(if Tree(callee).Var? then Tree(callee).name else "", Trees(args))
    case CBin(op, l, r) => if Tree(r) == Null then Null else Bin(op, Tree(l), Tree(r))
    case CIf(cond, thenStmts, hasElse, elseStmts, again) =>
      if hasElse && Cut(again) then Null
      else If(Tree(cond), BlockTree(thenStmts), if hasElse then BlockTree(elseStmts) else Null)
    case CDef(name, params, _, whole, body) => if whole then FuncDef(Proto(name, params), BlockTree(body)) else Null
    case CBad(_) => Null
  }

  function Trees(cs: seq<Cst>): (r: seq<Node>)
    ensures |r| == |cs|
    decreases cs, 0
  {
    if |cs| == 0 then [] else [Tree(cs[0])] + Trees(cs[1..])
  }

  /** The list ends with what could not be parsed. */
  predicate Cut(cs: seq<Cst>)
    decreases cs, 0
  {
    |cs| > 0 && Tree(cs[|cs| - 1]) == Null
  }

  /** A block; NULL if it was cut. */
  function BlockTree(stmts: seq<Cst>): Node
    decreases stmts, 1
  {
    if Cut(stmts) then Null else Block(Trees(stmts))
  }

  // ---------- Tokens ----------

  /** The tokens of the derivation, followed by `k`. */
  function Yield(c: Cst, k: seq<Token>): (r: seq<Token>)
    ensures |r| > |k|
    decreases c, 1
  {
    match c
    case CNum(v) => [Num(v)] + k
    case CId(x) => [Id(x)] + k
    case CParen(e) => [LParen] + Yield(e, [RParen] + k)
    case CCall(callee, args, commas) =>
      Yield(callee, [LParen] + YieldArgs(args, commas, if Cut(args) then k else [RParen] + k))
    case CBin(op, l, r) => Yield(l, [Op(op)] + Yield(r, k))
    case CIf(cond, thenStmts, hasElse, elseStmts, again) =>
      [IfKw] + ([LParen] + Yield(cond, [RParen] + ([LCurl] + YieldStmts(thenStmts,
        [RCurl] + if hasElse then [ElseKw] + ([LCurl] + YieldStmts(elseStmts, YieldStmts(again, if Cut(again) then k else [RCurl] + k))) else k))))
    case CDef(name, params, commas, whole, body) =>
      [DefKw] + ([Id(name)] + ([LParen] + YieldParams(params, commas,
        if whole then [RParen] + ([LCurl] + YieldStmts(body, [RCurl] + k)) else k)))
    case CBad(t) => [t] + k
  }

  function YieldArgs(args: seq<Cst>, commas: seq<bool>, k: seq<Token>): (r: seq<Token>)
    ensures |r| >= |k|
    decreases args, 0
  {
    if |args| == 0 then k
    else
      var rest := YieldArgs(args[1..], if |commas| > 0 then commas[1..] else [], k);
      Yield(args[0], if |commas| > 0 && commas[0] then [Comma] + rest else rest)
  }

  function YieldStmts(stmts: seq<Cst>, k: seq<Token>): (r: seq<Token>)
    ensures |r| >= |k|
    decreases stmts, 0
  {
    if |stmts| == 0 then k else Yield(stmts[0], [Semi] + YieldStmts(stmts[1..], k))
  }

  function YieldParams(params: seq<string>, commas: seq<bool>, k: seq<Token>): (r: seq<Token>)
    ensures |r| >= |k|
  {
    if |params| == 0 then k
    else
      var rest := YieldParams(params[1..], if |commas| > 0 then commas[1..] else [], k);
      [Id(params[0])] + if |commas| > 0 && commas[0] then [Comma] + rest else rest
  }

  /** The first token of a derivation. */
  function First(c: Cst): Token {
    match c
    case CNum(v) => Num(v)
    case CId(x) => Id(x)
    case CParen(_) => LParen
    case CCall(callee, _, _) => First(callee)
    case CBin(_, l, _) => First(l)
    case CIf(_, _, _, _, _) => IfKw
    case CDef(_, _, _, _, _) => DefKw
    case CBad(t) => t
  }

  function Head(k: seq<Token>): Token {
    if |k| > 0 then k[0] else Eos
  }

  // ---------- The language ----------

  /** `expr`: `expr < term0`, or `term0`. */
  predicate IsExpr(c: Cst)
    decreases c, 4
  {
    if c.CBin? && c.op == CmpLt then IsExpr(c.left) && IsTerm0(c.right) else IsTerm0(c)
  }

  /** `term0`: `term0 + term1`, `term0 - term1`, or `term1`. */
  predicate IsTerm0(c: Cst)
    decreases c, 3
  {
    if c.CBin? && (c.op == Add || c.op == Sub) then IsTerm0(c.left) && IsTerm1(c.right) else IsTerm1(c)
  }

  /** `term1`: `term1 * term2`, `term1 / term2`, or `term2`. */
  predicate IsTerm1(c: Cst)
    decreases c, 2
  {
    if c.CBin? && (c.op == Mul || c.op == Div) then IsTerm1(c.left) && IsTerm2(c.right) else IsTerm2(c)
  }

  /**
   * `term2`: what can be an operand. What is called is a variable, perhaps in parentheses, with at most 16
   * arguments; a function has at most 15 parameters.
   */
  predicate IsTerm2(c: Cst)
    decreases c, 1
  {
    match c
    case CNum(_) => true
    case CId(_) => true
    case CParen(e) => IsExpr(e)
    case CCall(callee, args, commas) =>
      && (callee.CId? || (callee.CParen? && IsTerm2(callee) && Tree(callee).Var?))
      && |args| <= 16 && IsArgs(args, commas)
    case CBin(_, _, _) => false
    case CIf(cond, thenStmts, hasElse, elseStmts, again) =>
      IsExpr(cond) && IsBlock(thenStmts) && again == [] && if hasElse then IsBlock(elseStmts) else elseStmts == []
    case CDef(_, params, commas, whole, body) => whole && |params| <= 15 && |commas| == |params| && IsBlock(body)
    case CBad(_) => false
  }

  /** Commas may be left out, but then an argument may not be followed by one that starts with a parenthesis. */
  predicate IsArgs(args: seq<Cst>, commas: seq<bool>)
    decreases args, 0
  {
    && |commas| == |args|
    && (|args| > 0 ==> IsExpr(args[0]) && IsArgs(args[1..], commas[1..]))
    && (|args| > 1 ==> commas[0] || First(args[1]) != LParen)
  }

  predicate IsBlock(stmts: seq<Cst>)
    decreases stmts, 0
  {
    |stmts| > 0 ==> IsExpr(stmts[0]) && IsBlock(stmts[1..])
  }

  // ---------- The language by binding powers ----------

  /** A derivation of the language whose operators, outside parentheses, bind at least as tight as `level`. */
  predicate Layered(c: Cst, level: nat)
    decreases c, 1
  {
    match c
    case CNum(_) => true
    case CId(_) => true
    case CParen(e) => Layered(e, 1)
    case CCall(callee, args, commas) =>
      && (callee.CId? || callee.CParen?) && Tree(callee).Var? && Layered(callee, 1)
      && |args| <= MAX_FUNC_PARAMS && ArgsLayered(args, commas)
    case CBin(op, l, r) => level <= OpLbp(op) && Layered(l, OpLbp(op)) && Layered(r, OpLbp(op) + 1)
    case CIf(cond, thenStmts, hasElse, elseStmts, again) =>
      && Layered(cond, 1) && StmtsLayered(thenStmts) && again == []
      && if hasElse then StmtsLayered(elseStmts) else elseStmts == []
    case CDef(_, params, commas, whole, body) =>
      whole && |params| < MAX_FUNC_PARAMS && |commas| == |params| && StmtsLayered(body)
    case CBad(_) => false
  }

  predicate ArgsLayered(args: seq<Cst>, commas: seq<bool>)
    decreases args, 0
  {
    && |commas| == |args|
    && (|args| > 0 ==> Layered(args[0], 1) && ArgsLayered(args[1..], commas[1..]))
    && (|args| > 1 ==> commas[0] || First(args[1]) != LParen)
  }

  predicate StmtsLayered(stmts: seq<Cst>)
    decreases stmts, 0
  {
    |stmts| > 0 ==> Layered(stmts[0], 1) && StmtsLayered(stmts[1..])
  }

  /** The binding powers give the layers of the language. */
  lemma {:induction false} LayersOfPowers(c: Cst)
    ensures (IsExpr(c) <==> Layered(c, 1)) && (IsTerm0(c) <==> Layered(c, 2)) && (IsTerm1(c) <==> Layered(c, 3))
    ensures forall level | level >= 4 :: IsTerm2(c) <==> Layered(c, level)
    decreases c, 1
  {
    LayersNest(c);
    match c
    case CParen(e) => LayersOfPowers(e);
    case CCall(callee, args, commas) =>
      LayersOfPowers(callee);
      ArgsOfPowers(args, commas);
    case CBin(_, l, r) =>
      LayersOfPowers(l);
      LayersOfPowers(r);
    case CIf(cond, thenStmts, _, elseStmts, _) =>
      LayersOfPowers(cond);
      BlockOfPowers(thenStmts);
      BlockOfPowers(elseStmts);
    case CDef(_, _, _, _, body) => BlockOfPowers(body);
    case _ =>
  }

  /** A derivation of one layer is one of the layers above. */
  lemma LayersNest(c: Cst)
    ensures !c.CBin? ==> IsExpr(c) == IsTerm0(c) == IsTerm1(c) == IsTerm2(c)
    ensures c.CBin? && c.op == CmpLt ==> !IsTerm0(c) && !IsTerm1(c) && !IsTerm2(c)
    ensures c.CBin? && (c.op == Add || c.op == Sub) ==> IsExpr(c) == IsTerm0(c) && !IsTerm1(c) && !IsTerm2(c)
    ensures c.CBin? && (c.op == Mul || c.op == Div) ==> IsExpr(c) == IsTerm0(c) == IsTerm1(c) && !IsTerm2(c)
  {
    assert c.CBin? ==> !IsTerm2(c);
    assert !(c.CBin? && (c.op == Mul || c.op == Div)) ==> IsTerm1(c) == IsTerm2(c);
    assert !(c.CBin? && (c.op == Add || c.op == Sub)) ==> IsTerm0(c) == IsTerm1(c);
  }

  lemma {:induction false} ArgsOfPowers(args: seq<Cst>, commas: seq<bool>)
    ensures IsArgs(args, commas) <==> ArgsLayered(args, commas)
    decreases args, 0
  {
    if |args| > 0 && |commas| == |args| {
      LayersOfPowers(args[0]);
      ArgsOfPowers(args[1..], commas[1..]);
    }
  }

  lemma {:induction false} BlockOfPowers(stmts: seq<Cst>)
    ensures IsBlock(stmts) <==> StmtsLayered(stmts)
    decreases stmts, 0
  {
    if |stmts| > 0 {
      LayersOfPowers(stmts[0]);
      BlockOfPowers(stmts[1..]);
    }
  }

  // ---------- What the parser lets through ----------

  /** Before token `t`, no part of what follows belongs to the derivation. */
  predicate Closes(c: Cst, t: Token)
    decreases c, 0
  {
    && t != Bad
    && match c
       case CBin(op, _, r) => Ends(r, t, OpLbp(op))
       case CCall(_, args, _) => Cut(args) ==> Ends(args[|args| - 1], t, 0)
       case CIf(_, _, hasElse, _, _) => hasElse || t != ElseKw
       case CDef(_, params, commas, whole, _) => !whole ==> Breaks(params, commas, t)
       case _ => true
  }

  /** Parsing for right binding power `rbp` ends after the derivation: at once if it is a bad token. */
  predicate Ends(c: Cst, t: Token, rbp: nat)
    decreases c, 1
  {
    if c.CBad? then t != Bad else InTable(t) && Lbp(t) <= rbp && Closes(c, t)
  }

  /** The parameters cannot go on with `t`: it is neither a name nor the end, or they are one too many. */
  predicate Breaks(params: seq<string>, commas: seq<bool>, t: Token) {
    && !t.Id? && (t == RParen ==> |params| == 16)
    && (|params| > 0 && |commas| == |params| && !commas[|params| - 1] ==> t != Comma)
  }

  /** A derivation that may contain error forms; all its operators bind at least as tight as `level`. */
  predicate Loose(c: Cst, level: nat)
    decreases c, 1
  {
    match c
    case CNum(_) => true
    case CId(_) => true
    case CParen(e) => Loose(e, 1) && Ends(e, RParen, 0)
    case CCall(callee, args, commas) =>
      && !callee.CBad? && Loose(callee, level) && Closes(callee, LParen) && LooseArgs(args, commas)
      && if Cut(args) then |args| <= 17 else |args| <= 16 && Tree(callee).Var?
    case CBin(op, l, r) =>
      level <= OpLbp(op) && !l.CBad? && Loose(l, level) && Closes(l, Op(op)) && Loose(r, OpLbp(op) + 1)
    case CIf(cond, thenStmts, hasElse, elseStmts, again) =>
      && Loose(cond, 1) && Ends(cond, RParen, 0) && LooseStmts(thenStmts)
      && (if hasElse then LooseStmts(elseStmts) && LooseStmts(again) else elseStmts == [])
      && ((hasElse && Cut(elseStmts)) || again == [])
    case CDef(_, params, commas, whole, body) =>
      && |commas| == |params|
      && if whole then |params| <= 15 && LooseStmts(body) else |params| <= 16 && body == []
    case CBad(t) => !HasPrefix(t) && InTable(t) && t != Bad
  }

  /** Only the last argument may be NULL, and then nothing comes after it. */
  predicate LooseArgs(args: seq<Cst>, commas: seq<bool>)
    decreases args, 0
  {
    && |commas| == |args|
    && (|args| > 0 ==>
      && Loose(args[0], 1) && First(args[0]) != RParen && LooseArgs(args[1..], commas[1..])
      && if Tree(args[0]) == Null then |args| == 1 && !commas[0] else ArgEnds(args[0], commas[0], AfterArg(args, commas)))
  }

  /** The token after the first argument. */
  function AfterArg(args: seq<Cst>, commas: seq<bool>): Token
    requires |commas| == |args| > 0
  {
    if commas[0] then Comma else if |args| > 1 then First(args[1]) else RParen
  }

  predicate ArgEnds(arg: Cst, comma: bool, t: Token) {
    Ends(arg, t, 0) && (t == Comma ==> comma)
  }

  /** Only the last statement may be NULL. */
  predicate LooseStmts(stmts: seq<Cst>)
    decreases stmts, 0
  {
    |stmts| > 0 ==>
      && Loose(stmts[0], 1) && Ends(stmts[0], Semi, 0) && !EndsBlock(First(stmts[0]))
      && (Tree(stmts[0]) == Null ==> |stmts| == 1) && LooseStmts(stmts[1..])
  }

  predicate EndsBlock(t: Token) {
    t == Eos || t == RCurl
  }

  /** No error form occurs. */
  predicate Clean(c: Cst)
    decreases c, 1
  {
    match c
    case CNum(_) => true
    case CId(_) => true
    case CParen(e) => Clean(e)
    case CCall(callee, args, _) => Clean(callee) && AllClean(args)
    case CBin(_, l, r) => Clean(l) && Clean(r)
    case CIf(cond, thenStmts, _, elseStmts, again) =>
      Clean(cond) && AllClean(thenStmts) && AllClean(elseStmts) && AllClean(again)
    case CDef(_, _, _, whole, body) => whole && AllClean(body)
    case CBad(_) => false
  }

  predicate AllClean(cs: seq<Cst>)
    decreases cs, 0
  {
    |cs| > 0 ==> Clean(cs[0]) && AllClean(cs[1..])
  }

  // ---------- Facts ----------

  lemma {:induction false} YieldFirst(c: Cst, k: seq<Token>)
    ensures Yield(c, k)[0] == First(c)
  {
    match c
    case CCall(callee, args, commas) =>
      YieldFirst(callee, [LParen] + YieldArgs(args, commas, if Cut(args) then k else [RParen] + k));
    case CBin(op, l, r) => YieldFirst(l, [Op(op)] + Yield(r, k));
    case _ =>
  }

  /** A derivation does not start where scanning or the table would end the program. */
  lemma {:induction false} LooseFirst(c: Cst, level: nat)
    requires Loose(c, level)
    ensures First(c) != Bad && InTable(First(c)) && (c.CBad? || HasPrefix(First(c)))
  {
    match c
    case CCall(callee, _, _) => LooseFirst(callee, level);
    case CBin(_, l, _) => LooseFirst(l, level);
    case _ =>
  }

  lemma {:induction false} LayeredLower(c: Cst, level: nat, lower: nat)
    requires Layered(c, level) && lower <= level
    ensures Layered(c, lower)
  {}

  /** A derivation without error forms has a tree. */
  lemma {:induction false} CleanNotNull(c: Cst)
    requires Clean(c)
    ensures Tree(c) != Null
    decreases c, 1
  {
    match c
    case CParen(e) => CleanNotNull(e);
    case CCall(_, args, _) => CleanNotCut(args);
    case CBin(_, l, r) => CleanNotNull(r);
    case CIf(_, _, _, _, again) => CleanNotCut(again);
    case _ =>
  }

  lemma {:induction false} CleanNotCut(cs: seq<Cst>)
    requires AllClean(cs)
    ensures !Cut(cs)
    decreases cs, 0
  {
    if |cs| > 1 {
      CleanNotCut(cs[1..]);
      assert cs[1..][|cs| - 2] == cs[|cs| - 1];
    } else if |cs| == 1 {
      CleanNotNull(cs[0]);
    }
  }

  lemma CutTail(cs: seq<Cst>)
    requires |cs| > 1
    ensures Cut(cs) == Cut(cs[1..]) && cs[1..][|cs| - 2] == cs[|cs| - 1]
  {}
}
