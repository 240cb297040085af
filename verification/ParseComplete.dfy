/**
 * Every derivation is parsed, to its own tree and no further than it goes; the error flag is set on the
 * way exactly if an error form occurs.
 */
module ParseComplete {
  import opened Wrappers
  import opened Ast
  import opened LexSpec
  import opened ParseSpec
  import opened Grammar

  /** Scanning one token off the front. */
  lemma ScanFront(t: Token, k: seq<Token>, err: bool)
    requires Head(k) != Bad
    ensures Live([t] + k, err).Scan() == Live(k, err) && Live([t] + k, err).Tok() == t
  {
    assert ([t] + k)[1..] == k;
  }

  /** Expecting a token that is there. */
  lemma ExpectFront(t: Token, k: seq<Token>, err: bool)
    requires Head(k) != Bad
    ensures Live([t] + k, err).Expect(t) == Live(k, err)
  {
    ScanFront(t, k, err);
  }

  /** How the loop starts on a token that begins an operand. */
  lemma PrefixStep(t: Token, k: seq<Token>, err: bool, rbp: nat)
    requires HasPrefix(t) && Head(k) != Bad
    ensures Expression(Live([t] + k, err), rbp) ==
      InfixLoop(Prefix(t, Live(k, err)).0, Prefix(t, Live(k, err)).1, rbp)
  {
    ScanFront(t, k, err);
    hide Prefix, InfixLoop;
  }

  /** The loop reads the whole derivation, and goes on with the tree as its left operand. */
  lemma {:induction false} Spine(c: Cst, k: seq<Token>, err: bool, rbp: nat)
    requires Loose(c, rbp + 1) && !c.CBad? && Closes(c, Head(k)) && rbp < 10
    ensures Expression(Live(Yield(c, k), err), rbp) == InfixLoop(Tree(c), Live(k, err || !Clean(c)), rbp)
    decreases c, 4
  {
    match c
    case CNum(v) => PrefixStep(Num(v), k, err, rbp);
    case CId(x) => PrefixStep(Id(x), k, err, rbp);
    case CParen(_) => SpineParen(c, k, err, rbp);
    case CBin(op, l, r) => SpineBin(c, k, err, rbp);
    case CCall(_, _, _) => SpineCall(c, k, err, rbp);
    case CIf(_, _, _, _, _) => SpineIf(c, k, err, rbp);
    case CDef(_, _, _, _, _) => SpineDef(c, k, err, rbp);
  }

  /** Where the derivation ends, parsing stops with the tree. */
  lemma {:induction false} Whole(c: Cst, k: seq<Token>, err: bool, rbp: nat)
    requires Loose(c, rbp + 1) && Ends(c, Head(k), rbp) && rbp < 10
    ensures Expression(Live(Yield(c, k), err), rbp) == (Tree(c), Live(k, err || !Clean(c)))
    decreases c, 5
  {
    if c.CBad? {
      ScanFront(c.tok, k, err);
    } else {
      Spine(c, k, err, rbp);
    }
  }

  lemma {:induction false} SpineParen(c: Cst, k: seq<Token>, err: bool, rbp: nat)
    requires c.CParen? && Loose(c, rbp + 1) && Closes(c, Head(k)) && rbp < 10
    ensures Expression(Live(Yield(c, k), err), rbp) == InfixLoop(Tree(c), Live(k, err || !Clean(c)), rbp)
    decreases c, 3
  {
    hide Expression, InfixLoop;
    var k1 := [RParen] + k;
    YieldFirst(c.inner, k1);
    LooseFirst(c.inner, 1);
    PrefixStep(LParen, Yield(c.inner, k1), err, rbp);
    Whole(c.inner, k1, err, 0);
    ExpectFront(RParen, k, err || !Clean(c));
    assert ParenPrefix(Live(Yield(c.inner, k1), err)) == (Tree(c.inner), Live(k, err || !Clean(c)));
  }

  /** One round of the loop at an operator. */
  lemma OpStep(left: Node, op: BinOp, k: seq<Token>, err: bool, rbp: nat, right: Node, s: PState)
    requires rbp < OpLbp(op) && Head(k) != Bad && s.Live? && (right == Null ==> s.err)
    requires Expression(Live(k, err), OpLbp(op)) == (right, s)
    ensures InfixLoop(left, Live([Op(op)] + k, err), rbp) ==
      InfixLoop(if right == Null then Null else Bin(op, left, right), s, rbp)
  {
    hide Expression;
    ScanFront(Op(op), k, err);
  }

  lemma {:induction false} SpineBin(c: Cst, k: seq<Token>, err: bool, rbp: nat)
    requires c.CBin? && Loose(c, rbp + 1) && Closes(c, Head(k)) && rbp < 10
    ensures Expression(Live(Yield(c, k), err), rbp) == InfixLoop(Tree(c), Live(k, err || !Clean(c)), rbp)
    decreases c, 3
  {
    hide Expression, InfixLoop;
    var p := OpLbp(c.op);
    var k1 := Yield(c.right, k);
    var err1 := err || !Clean(c.left);
    YieldFirst(c.right, k);
    LooseFirst(c.right, p + 1);
    Spine(c.left, [Op(c.op)] + k1, err, rbp);
    Whole(c.right, k, err1, p);
    NullNotClean(c.right);
    OpStep(Tree(c.left), c.op, k1, err1, rbp, Tree(c.right), Live(k, err || !Clean(c)));
  }

  lemma NullNotClean(c: Cst)
    ensures Tree(c) == Null ==> !Clean(c)
  {
    if Clean(c) {
      CleanNotNull(c);
    }
  }

  lemma CutNotClean(cs: seq<Cst>)
    ensures Cut(cs) ==> !AllClean(cs)
  {
    if AllClean(cs) {
      CleanNotCut(cs);
    }
  }

  // ---------- Calls ----------

  lemma ArgsHead(args: seq<Cst>, commas: seq<bool>, k: seq<Token>)
    requires LooseArgs(args, commas)
    ensures |args| == 0 ==> YieldArgs(args, commas, k) == k
    ensures |args| > 0 ==> Head(YieldArgs(args, commas, k)) == First(args[0]) && First(args[0]) != Bad
  {
    if |args| > 0 {
      var rest := YieldArgs(args[1..], commas[1..], k);
      YieldFirst(args[0], if commas[0] then [Comma] + rest else rest);
      LooseFirst(args[0], 1);
    }
  }

  /** What has to follow a list of arguments. */
  predicate ArgsEnd(args: seq<Cst>, k: seq<Token>) {
    if Cut(args) then Ends(args[|args| - 1], Head(k), 0) else Head(k) == RParen
  }

  lemma {:induction false} ArgsWhole(acc: seq<Node>, args: seq<Cst>, commas: seq<bool>, k: seq<Token>, err: bool)
    requires LooseArgs(args, commas) && ArgsEnd(args, k)
    requires |acc| + |args| <= MAX_FUNC_PARAMS + if Cut(args) then 1 else 0
    ensures ArgsLoop(acc, Live(YieldArgs(args, commas, k), err)) ==
      (if Cut(args) then None else Some(acc + Trees(args)), Live(k, err || !AllClean(args)))
    decreases args, 0
  {
    hide ArgsLoop, Expression, Loose, Yield, YieldArgs, Trees, Ends, Tree, Clean, First;
    ArgsHead(args, commas, k);
    if |args| == 0 {
      ArgsStop(acc, k, err);
      TreesUnfold(args);
      assert acc + [] == acc;
    } else {
      var rest := YieldArgs(args[1..], commas[1..], k);
      var k1 := if commas[0] then [Comma] + rest else rest;
      ArgsUnfold(args, commas, k);
      ArgsHead(args[1..], commas[1..], k);
      NullNotClean(args[0]);
      if Tree(args[0]) == Null {
        Whole(args[0], k, err, 0);
        ArgsCut(acc, args[0], k, err);
      } else {
        ArgsNext(args, commas, k);
        Whole(args[0], k1, err, 0);
        ArgsStep(acc, args[0], commas[0], rest, err);
        ArgsWhole(acc + [Tree(args[0])], args[1..], commas[1..], k, err || !Clean(args[0]));
        TreesUnfold(args);
        assert acc + [Tree(args[0])] + Trees(args[1..]) == acc + ([Tree(args[0])] + Trees(args[1..]));
      }
    }
  }

  /** What follows the first argument, and the rest of the list. */
  lemma ArgsNext(args: seq<Cst>, commas: seq<bool>, k: seq<Token>)
    requires |args| > 0 && LooseArgs(args, commas) && ArgsEnd(args, k) && Tree(args[0]) != Null
    ensures
      var rest := YieldArgs(args[1..], commas[1..], k);
      && Ends(args[0], Head(if commas[0] then [Comma] + rest else rest), 0)
      && Head(rest) != Bad && (commas[0] || Head(rest) != Comma)
    ensures ArgsEnd(args[1..], k) && Cut(args[1..]) == Cut(args)
  {
    ArgsHead(args[1..], commas[1..], k);
    if |args| > 1 {
      CutTail(args);
      assert args[1..][0] == args[1];
    }
    hide Ends, Loose;
  }

  lemma ArgsUnfold(args: seq<Cst>, commas: seq<bool>, k: seq<Token>)
    requires |args| == |commas| > 0
    ensures
      var rest := YieldArgs(args[1..], commas[1..], k);
      YieldArgs(args, commas, k) == Yield(args[0], if commas[0] then [Comma] + rest else rest)
    ensures |args| == 1 ==> YieldArgs(args[1..], commas[1..], k) == k
  {}

  lemma TreesUnfold(cs: seq<Cst>)
    ensures Trees(cs) == if |cs| == 0 then [] else [Tree(cs[0])] + Trees(cs[1..])
  {}

  lemma ArgsStop(acc: seq<Node>, k: seq<Token>, err: bool)
    requires Head(k) == RParen
    ensures ArgsLoop(acc, Live(k, err)) == (Some(acc), Live(k, err))
  {}

  /** A NULL argument ends the list. */
  lemma ArgsCut(acc: seq<Node>, arg: Cst, k: seq<Token>, err: bool)
    requires First(arg) != RParen
    requires Expression(Live(Yield(arg, k), err), 0) == (Null, Live(k, true))
    ensures ArgsLoop(acc, Live(Yield(arg, k), err)) == (None, Live(k, true))
  {
    hide Expression;
    YieldFirst(arg, k);
  }

  /** One argument, once it is known to be parsed. */
  lemma ArgsStep(acc: seq<Node>, arg: Cst, comma: bool, rest: seq<Token>, err: bool)
    requires |acc| < MAX_FUNC_PARAMS && Head(rest) != Bad && (comma || Head(rest) != Comma)
    requires First(arg) != RParen && Tree(arg) != Null
    requires
      var k := if comma then [Comma] + rest else rest;
      Expression(Live(Yield(arg, k), err), 0) == (Tree(arg), Live(k, err || !Clean(arg)))
    ensures
      var k := if comma then [Comma] + rest else rest;
      ArgsLoop(acc, Live(Yield(arg, k), err)) == ArgsLoop(acc + [Tree(arg)], Live(rest, err || !Clean(arg)))
  {
    hide Expression;
    YieldFirst(arg, if comma then [Comma] + rest else rest);
    if comma {
      ScanFront(Comma, rest, err || !Clean(arg));
    }
  }

  /** What a call is made of. */
  lemma CallShape(c: Cst, level: nat, k: seq<Token>)
    requires c.CCall? && Head(k) != Bad
    ensures
      var k2 := if Cut(c.args) then k else [RParen] + k;
      && Yield(c, k) == Yield(c.callee, [LParen] + YieldArgs(c.args, c.commas, k2))
      && (Closes(c, Head(k)) <==> ArgsEnd(c.args, k2))
    ensures Loose(c, level) <==>
      && !c.callee.CBad? && Loose(c.callee, level) && Closes(c.callee, LParen) && LooseArgs(c.args, c.commas)
      && |c.args| <= MAX_FUNC_PARAMS + (if Cut(c.args) then 1 else 0) && (Cut(c.args) || Tree(c.callee).Var?)
    ensures Clean(c) <==> Clean(c.callee) && AllClean(c.args)
    ensures Tree(c) == if Cut(c.args) then Null else Call(if Tree(c.callee).Var? then Tree(c.callee).name else "", Trees(c.args))
  {}

  lemma ClosesNotBad(c: Cst, t: Token)
    requires Closes(c, t)
    ensures t != Bad
  {}

  /** The steps of a call, from after its parenthesis. */
  lemma CallSteps(left: Node, s: PState, args: seq<Node>, s1: PState)
    requires ArgsLoop([], s) == (Some(args), s1) && s1.Expect(RParen).Live? && left.Var?
    ensures CallInfix(left, s) == (Call(left.name, args), s1.Expect(RParen))
  {
    hide ArgsLoop;
  }

  lemma CallFails(left: Node, s: PState, k: seq<Token>)
    requires ArgsLoop([], s) == (None, Live(k, true))
    ensures CallInfix(left, s) == (Null, Live(k, true))
  {
    hide ArgsLoop;
  }

  lemma CallLoop(left: Node, k: seq<Token>, err: bool, rbp: nat)
    requires Head(k) != Bad && rbp < 10
    ensures InfixLoop(left, Live([LParen] + k, err), rbp) ==
      InfixLoop(CallInfix(left, Live(k, err)).0, CallInfix(left, Live(k, err)).1, rbp)
  {
    hide CallInfix;
    ScanFront(LParen, k, err);
  }

  lemma {:induction false} SpineCall(c: Cst, k: seq<Token>, err: bool, rbp: nat)
    requires c.CCall? && Loose(c, rbp + 1) && Closes(c, Head(k)) && rbp < 10
    ensures Expression(Live(Yield(c, k), err), rbp) == InfixLoop(Tree(c), Live(k, err || !Clean(c)), rbp)
    decreases c, 3
  {
    hide Expression, InfixLoop, CallInfix, ArgsLoop, Loose, Closes, Yield, Tree, Clean, LooseArgs, ArgsEnd, Cut;
    ClosesNotBad(c, Head(k));
    CallShape(c, rbp + 1, k);
    var k2 := if Cut(c.args) then k else [RParen] + k;
    var k1 := YieldArgs(c.args, c.commas, k2);
    var err1 := err || !Clean(c.callee);
    assert Head(k2) != Bad;
    ArgsHead(c.args, c.commas, k2);
    Spine(c.callee, [LParen] + k1, err, rbp);
    CallLoop(Tree(c.callee), k1, err1, rbp);
    ArgsWhole([], c.args, c.commas, k2, err1);
    CutNotClean(c.args);
    assert [] + Trees(c.args) == Trees(c.args);
    if Cut(c.args) {
      CallFails(Tree(c.callee), Live(k1, err1), k);
    } else {
      ExpectFront(RParen, k, err || !Clean(c));
      CallSteps(Tree(c.callee), Live(k1, err1), Trees(c.args), Live(k2, err || !Clean(c)));
    }
  }

  // ---------- Blocks ----------

  lemma {:induction false} StmtsWhole(acc: seq<Node>, stmts: seq<Cst>, k: seq<Token>, err: bool)
    requires LooseStmts(stmts) && Head(k) != Bad && (Cut(stmts) || EndsBlock(Head(k)))
    ensures StmtsLoop(acc, Live(YieldStmts(stmts, k), err)) ==
      (if Cut(stmts) then Null else Block(acc + Trees(stmts)), Live(k, err || !AllClean(stmts)))
    decreases stmts, 0
  {
    hide Expression, StmtsLoop, Loose, Ends;
    if |stmts| == 0 {
      StmtsStop(acc, k, err);
      assert acc + Trees(stmts) == acc;
    } else {
      var rest := YieldStmts(stmts[1..], k);
      StmtsHead(stmts[1..], k);
      Whole(stmts[0], [Semi] + rest, err, 0);
      NullNotClean(stmts[0]);
      LooseNotBad(stmts[0]);
      StmtsStep(acc, stmts[0], rest, err);
      if Tree(stmts[0]) != Null {
        if |stmts| > 1 {
          CutTail(stmts);
        }
        StmtsWhole(acc + [Tree(stmts[0])], stmts[1..], k, err || !Clean(stmts[0]));
        assert acc + [Tree(stmts[0])] + Trees(stmts[1..]) == acc + Trees(stmts);
      }
    }
  }

  lemma NoStmts(k: seq<Token>)
    ensures LooseStmts([]) && YieldStmts([], k) == k && Trees([]) == [] && AllClean([]) && !Cut([])
  {}

  lemma LooseNotBad(c: Cst)
    requires Loose(c, 1)
    ensures First(c) != Bad
  {
    LooseFirst(c, 1);
  }

  lemma StmtsStop(acc: seq<Node>, k: seq<Token>, err: bool)
    requires EndsBlock(Head(k))
    ensures StmtsLoop(acc, Live(k, err)) == (Block(acc), Live(k, err))
  {}

  /** One statement, once it is known to be parsed. */
  lemma StmtsStep(acc: seq<Node>, stmt: Cst, rest: seq<Token>, err: bool)
    requires Head(rest) != Bad && !EndsBlock(First(stmt))
    requires Expression(Live(Yield(stmt, [Semi] + rest), err), 0) == (Tree(stmt), Live([Semi] + rest, err || !Clean(stmt)))
    ensures StmtsLoop(acc, Live(Yield(stmt, [Semi] + rest), err)) ==
      if Tree(stmt) == Null then (Null, Live(rest, err || !Clean(stmt)))
      else StmtsLoop(acc + [Tree(stmt)], Live(rest, err || !Clean(stmt)))
  {
    hide Expression;
    YieldFirst(stmt, [Semi] + rest);
    ExpectFront(Semi, rest, err || !Clean(stmt));
  }

  lemma StmtsHead(stmts: seq<Cst>, k: seq<Token>)
    requires LooseStmts(stmts) && Head(k) != Bad
    ensures Head(YieldStmts(stmts, k)) != Bad
  {
    if |stmts| > 0 {
      YieldFirst(stmts[0], [Semi] + YieldStmts(stmts[1..], k));
      LooseFirst(stmts[0], 1);
    }
  }

  /** The statements of a block as `block` reads them. */
  lemma {:induction false} BodyWhole(stmts: seq<Cst>, k: seq<Token>, err: bool)
    requires LooseStmts(stmts) && Head(k) != Bad && (Cut(stmts) || EndsBlock(Head(k)))
    ensures BlockBody(Live(YieldStmts(stmts, k), err)) == (BlockTree(stmts), Live(k, err || !AllClean(stmts)))
    decreases stmts, 1
  {
    StmtsWhole([], stmts, k, err);
    assert [] + Trees(stmts) == Trees(stmts);
  }

  /** A block between its braces, from after the opening one. */
  lemma {:induction false} BlockWhole(stmts: seq<Cst>, k: seq<Token>, err: bool)
    requires LooseStmts(stmts) && Head(k) != Bad
    ensures
      var s := Live(YieldStmts(stmts, [RCurl] + k), err);
      var r := Live([RCurl] + k, err || !AllClean(stmts));
      BlockBody(s) == (BlockTree(stmts), r) && r.Expect(RCurl) == Live(k, err || !AllClean(stmts))
    ensures Live([LCurl] + YieldStmts(stmts, [RCurl] + k), err).Expect(LCurl) == Live(YieldStmts(stmts, [RCurl] + k), err)
    decreases stmts, 2
  {
    StmtsHead(stmts, [RCurl] + k);
    ExpectFront(LCurl, YieldStmts(stmts, [RCurl] + k), err);
    BodyWhole(stmts, [RCurl] + k, err);
    ExpectFront(RCurl, k, err || !AllClean(stmts));
  }

  // ---------- Conditionals ----------

  /** The tokens of an `else` part, from after its keyword. */
  function ElseYield(elseStmts: seq<Cst>, again: seq<Cst>, k: seq<Token>): seq<Token> {
    [LCurl] + YieldStmts(elseStmts, YieldStmts(again, if Cut(again) then k else [RCurl] + k))
  }

  /** The tokens after the condition of an `if`. */
  function IfYield(c: Cst, k: seq<Token>): seq<Token>
    requires c.CIf?
  {
    [LCurl] + YieldStmts(c.thenStmts, [RCurl] + IfRest(c, k))
  }

  function IfRest(c: Cst, k: seq<Token>): seq<Token>
    requires c.CIf?
  {
    if c.hasElse then [ElseKw] + ElseYield(c.elseStmts, c.again, k) else k
  }

  lemma {:induction false} SpineIf(c: Cst, k: seq<Token>, err: bool, rbp: nat)
    requires c.CIf? && Loose(c, rbp + 1) && Closes(c, Head(k)) && rbp < 10
    ensures Expression(Live(Yield(c, k), err), rbp) == InfixLoop(Tree(c), Live(k, err || !Clean(c)), rbp)
    decreases c, 3
  {
    hide Expression, InfixLoop, IfPrefix;
    var k2 := Yield(c.cond, [RParen] + IfYield(c, k));
    assert Yield(c, k) == [IfKw] + ([LParen] + k2);
    PrefixStep(IfKw, [LParen] + k2, err, rbp);
    IfWhole(c, k, err);
  }

  /** The steps of an `if`. */
  lemma IfSteps(s: PState, cond: Node, thenBlock: Node, s1: PState, s2: PState)
    requires Expression(s.Expect(LParen), 0) == (cond, s1) && s2.Expect(RCurl).Live?
    requires BlockBody(s1.Expect(RParen).Expect(LCurl)) == (thenBlock, s2)
    ensures
      var s3 := s2.Expect(RCurl);
      IfPrefix(s) == if s3.Is(ElseKw) then ElsePart(cond, thenBlock, s3.Scan()) else (If(cond, thenBlock, Null), s3)
  {
    hide Expression, BlockBody, ElsePart;
  }

  /** What an `if` is made of. */
  lemma IfShape(c: Cst, k: seq<Token>)
    requires c.CIf?
    ensures IfYield(c, k) == [LCurl] + YieldStmts(c.thenStmts, [RCurl] + IfRest(c, k))
    ensures Yield(c, k) == [IfKw] + ([LParen] + Yield(c.cond, [RParen] + IfYield(c, k)))
    ensures Closes(c, Head(k)) <==> Head(k) != Bad && (c.hasElse || Head(k) != ElseKw)
    ensures Clean(c) <==> Clean(c.cond) && AllClean(c.thenStmts) && AllClean(c.elseStmts) && AllClean(c.again)
    ensures Tree(c) ==
      if c.hasElse && Cut(c.again) then Null
      else If(Tree(c.cond), BlockTree(c.thenStmts), if c.hasElse then BlockTree(c.elseStmts) else Null)
  {}

  lemma LooseIf(c: Cst, t: Token)
    requires c.CIf? && Loose(c, 1) && Closes(c, t)
    ensures Loose(c.cond, 1) && Ends(c.cond, RParen, 0) && LooseStmts(c.thenStmts) && t != Bad && (c.hasElse || t != ElseKw)
    ensures c.hasElse || (c.elseStmts == [] && c.again == [])
  {}

  /** An `if`, from after its keyword. */
  lemma {:induction false} IfWhole(c: Cst, k: seq<Token>, err: bool)
    requires c.CIf? && Loose(c, 1) && Closes(c, Head(k))
    ensures IfPrefix(Live([LParen] + Yield(c.cond, [RParen] + IfYield(c, k)), err)) == (Tree(c), Live(k, err || !Clean(c)))
    decreases c, 2
  {
    hide Expression, BlockBody, IfPrefix, ElsePart, Loose, Closes, Ends, Tree, Clean, Yield, IfYield, PState.Expect, PState.Scan;
    LooseIf(c, Head(k));
    IfShape(c, k);
    var k3 := IfYield(c, k);
    var k4 := IfRest(c, k);
    var k2 := Yield(c.cond, [RParen] + k3);
    var err1 := err || !Clean(c.cond);
    var err2 := err1 || !AllClean(c.thenStmts);
    YieldFirst(c.cond, [RParen] + k3);
    LooseNotBad(c.cond);
    ExpectFront(LParen, k2, err);
    Whole(c.cond, [RParen] + k3, err, 0);
    ExpectFront(RParen, k3, err1);
    BlockWhole(c.thenStmts, k4, err1);
    IfSteps(Live([LParen] + k2, err), Tree(c.cond), BlockTree(c.thenStmts), Live([RParen] + k3, err1), Live([RCurl] + k4, err2));
    if c.hasElse {
      ElseWhole(c, k, err2);
      ScanFront(ElseKw, ElseYield(c.elseStmts, c.again, k), err2);
    }
  }

  /**
   * The `else` part, from after its keyword. After a block that was read, the second call of `block` finds
   * nothing; after one that was cut, it reads on, and only what it returns is tested.
   */
  lemma {:induction false} ElseWhole(c: Cst, k: seq<Token>, err: bool)
    requires c.CIf? && c.hasElse && Loose(c, 1) && Head(k) != Bad
    ensures ElsePart(Tree(c.cond), BlockTree(c.thenStmts), Live(ElseYield(c.elseStmts, c.again, k), err)) ==
      (Tree(c), Live(k, err || !AllClean(c.elseStmts) || !AllClean(c.again)))
    decreases c, 1
  {
    hide BlockBody, Loose;
    var elseStmts, again := c.elseStmts, c.again;
    LooseElse(c);
    var k2 := if Cut(again) then k else [RCurl] + k;
    var k1 := YieldStmts(again, k2);
    var err1 := err || !AllClean(elseStmts);
    StmtsHead(again, k2);
    StmtsHead(elseStmts, k1);
    ExpectFront(LCurl, YieldStmts(elseStmts, k1), err);
    BodyWhole(elseStmts, k1, err);
    BodyWhole(again, k2, err1);
    CutNotClean(again);
    ExpectFront(RCurl, k, err1 || !AllClean(again));
  }

  lemma LooseElse(c: Cst)
    requires c.CIf? && c.hasElse && Loose(c, 1)
    ensures LooseStmts(c.elseStmts) && LooseStmts(c.again) && (Cut(c.elseStmts) || c.again == [])
  {}

  // ---------- Definitions ----------

  lemma {:induction false} ParamsWhole(acc: seq<string>, params: seq<string>, commas: seq<bool>, k: seq<Token>, err: bool)
    requires |commas| == |params| && |acc| + |params| <= MAX_FUNC_PARAMS && Head(k) == RParen
    ensures ParamsLoop(acc, Live(YieldParams(params, commas, k), err)) == (Some(acc + params), Live(k, err))
    decreases |params|
  {
    hide ParamsLoop;
    if |params| == 0 {
      ParamsStop(acc, k, err);
      assert acc + params == acc;
    } else {
      var rest := YieldParams(params[1..], commas[1..], k);
      ParamsHead(params[1..], commas[1..], k);
      ParamsStep(acc, params[0], commas[0], rest, err);
      ParamsWhole(acc + [params[0]], params[1..], commas[1..], k, err);
      assert acc + [params[0]] + params[1..] == acc + params;
    }
  }

  lemma ParamsStop(acc: seq<string>, k: seq<Token>, err: bool)
    requires Head(k) == RParen
    ensures ParamsLoop(acc, Live(k, err)) == (Some(acc), Live(k, err))
  {}

  lemma ParamsStep(acc: seq<string>, param: string, comma: bool, rest: seq<Token>, err: bool)
    requires |acc| < MAX_FUNC_PARAMS && Head(rest) != Bad && (comma || Head(rest) != Comma)
    ensures ParamsLoop(acc, Live([Id(param)] + if comma then [Comma] + rest else rest, err)) ==
      ParamsLoop(acc + [param], Live(rest, err))
  {
    ScanFront(Id(param), if comma then [Comma] + rest else rest, err);
    if comma {
      ScanFront(Comma, rest, err);
    }
  }

  lemma ParamsHead(params: seq<string>, commas: seq<bool>, k: seq<Token>)
    ensures if |params| > 0 then Head(YieldParams(params, commas, k)) == Id(params[0]) else YieldParams(params, commas, k) == k
  {}

  /** Parameters that do not go on: either their end is not found, or they are sixteen. */
  lemma {:induction false} ParamsBreak(acc: seq<string>, params: seq<string>, commas: seq<bool>, k: seq<Token>, err: bool)
    requires |commas| == |params| && |acc| + |params| <= MAX_FUNC_PARAMS && Head(k) != Bad && !Head(k).Id?
    requires Head(k) == RParen ==> |acc| + |params| == MAX_FUNC_PARAMS
    requires |params| > 0 && !commas[|params| - 1] ==> Head(k) != Comma
    ensures
      var (all, s) := ParamsLoop(acc, Live(YieldParams(params, commas, k), err));
      s == Live(k, err) && (all.Some? ==> |all.value| == MAX_FUNC_PARAMS)
    decreases |params|
  {
    hide ParamsLoop;
    if |params| == 0 {
      ParamsStuck(acc, k, err);
    } else {
      var rest := YieldParams(params[1..], commas[1..], k);
      ParamsHead(params[1..], commas[1..], k);
      ParamsStep(acc, params[0], commas[0], rest, err);
      ParamsBreak(acc + [params[0]], params[1..], commas[1..], k, err);
    }
  }

  lemma ParamsStuck(acc: seq<string>, k: seq<Token>, err: bool)
    requires !Head(k).Id? && (Head(k) == RParen ==> |acc| == MAX_FUNC_PARAMS)
    ensures
      var (all, s) := ParamsLoop(acc, Live(k, err));
      s == Live(k, err) && (all.Some? ==> |all.value| == MAX_FUNC_PARAMS)
  {}

  /** The tokens of a definition after its opening parenthesis. */
  function DefYield(c: Cst, k: seq<Token>): seq<Token>
    requires c.CDef?
  {
    YieldParams(c.params, c.commas, if c.whole then [RParen] + ([LCurl] + YieldStmts(c.body, [RCurl] + k)) else k)
  }

  lemma {:induction false} SpineDef(c: Cst, k: seq<Token>, err: bool, rbp: nat)
    requires c.CDef? && Loose(c, rbp + 1) && Closes(c, Head(k)) && rbp < 10
    ensures Expression(Live(Yield(c, k), err), rbp) == InfixLoop(Tree(c), Live(k, err || !Clean(c)), rbp)
    decreases c, 3
  {
    hide Expression, InfixLoop, DefPrefix;
    assert Yield(c, k) == [DefKw] + ([Id(c.name)] + ([LParen] + DefYield(c, k)));
    PrefixStep(DefKw, [Id(c.name)] + ([LParen] + DefYield(c, k)), err, rbp);
    if c.whole {
      DefWhole(c, k, err);
    } else {
      DefBreak(c, k, err);
    }
  }

  /** The steps of a definition. */
  lemma DefSteps(s: PState, params: seq<string>, body: Node, s1: PState, s2: PState)
    requires s.Tok().Id? && s1.Live? && |params| < MAX_FUNC_PARAMS && s2.Expect(RCurl).Live?
    requires s.Scan().Expect(LParen).Live? && ParamsLoop([], s.Scan().Expect(LParen)) == (Some(params), s1)
    requires BlockBody(s1.Expect(RParen).Expect(LCurl)) == (body, s2)
    ensures DefPrefix(s) == (FuncDef(Proto(s.Tok().name, params), body), s2.Expect(RCurl))
  {
    hide ParamsLoop, BlockBody;
  }

  /** A definition, from after its keyword. */
  lemma {:induction false} DefWhole(c: Cst, k: seq<Token>, err: bool)
    requires c.CDef? && c.whole && Loose(c, 1) && Head(k) != Bad
    ensures DefPrefix(Live([Id(c.name)] + ([LParen] + DefYield(c, k)), err)) == (Tree(c), Live(k, err || !Clean(c)))
    decreases c, 2
  {
    hide Expression, BlockBody, ParamsLoop, DefPrefix;
    var k4 := [LCurl] + YieldStmts(c.body, [RCurl] + k);
    var k3 := DefYield(c, k);
    var s := Live([Id(c.name)] + ([LParen] + k3), err);
    ScanFront(Id(c.name), [LParen] + k3, err);
    ParamsHead(c.params, c.commas, [RParen] + k4);
    ExpectFront(LParen, k3, err);
    ParamsWhole([], c.params, c.commas, [RParen] + k4, err);
    assert [] + c.params == c.params;
    ExpectFront(RParen, k4, err);
    BlockWhole(c.body, k, err);
    DefSteps(s, c.params, BlockTree(c.body), Live([RParen] + k4, err), Live([RCurl] + k, err || !Clean(c)));
  }

  /** A definition whose parameters do not go on is given up where they stop. */
  lemma DefBreak(c: Cst, k: seq<Token>, err: bool)
    requires c.CDef? && !c.whole && Loose(c, 1) && Closes(c, Head(k))
    ensures DefPrefix(Live([Id(c.name)] + ([LParen] + DefYield(c, k)), err)) == (Null, Live(k, true))
  {
    hide BlockBody, ParamsLoop;
    var k3 := DefYield(c, k);
    ParamsHead(c.params, c.commas, k);
    ScanFront(Id(c.name), [LParen] + k3, err);
    ExpectFront(LParen, k3, err);
    ParamsBreak([], c.params, c.commas, k, err);
  }
}
