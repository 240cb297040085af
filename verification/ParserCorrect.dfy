/** The parser against the grammar: what is a sentence of the language, and what else it accepts. */
module ParserCorrect {
  import opened Ast
  import opened LexSpec
  import opened ParseSpec
  import opened Grammar
  import opened ParseComplete
  import opened ParseSound

  // ---------- The language is what is read without error forms ----------

  /** In the language, a token that binds no tighter than the layer closes a derivation. */
  lemma {:induction false} LayeredCloses(c: Cst, level: nat, t: Token)
    requires Layered(c, level) && Lbp(t) <= level && t != Bad && InTable(t)
    ensures Closes(c, t) && Clean(c)
    decreases c, 1
  {
    match c
    case CParen(e) => LayeredCloses(e, 1, RParen);
    case CCall(callee, args, commas) =>
      LayeredCloses(callee, 1, RParen);
      ArgsLayeredClean(args, commas);
      CleanNotCut(args);
    case CBin(op, l, r) =>
      LayeredCloses(l, OpLbp(op), Op(op));
      LayeredCloses(r, OpLbp(op) + 1, t);
    case CIf(cond, thenStmts, _, elseStmts, _) =>
      LayeredCloses(cond, 1, RParen);
      StmtsLayeredClean(thenStmts);
      StmtsLayeredClean(elseStmts);
    case CDef(_, _, _, _, body) => StmtsLayeredClean(body);
    case _ =>
  }

  lemma {:induction false} ArgsLayeredClean(args: seq<Cst>, commas: seq<bool>)
    requires ArgsLayered(args, commas)
    ensures AllClean(args)
    decreases args, 0
  {
    if |args| > 0 {
      LayeredCloses(args[0], 1, RParen);
      ArgsLayeredClean(args[1..], commas[1..]);
    }
  }

  lemma {:induction false} StmtsLayeredClean(stmts: seq<Cst>)
    requires StmtsLayered(stmts)
    ensures AllClean(stmts)
    decreases stmts, 0
  {
    if |stmts| > 0 {
      LayeredCloses(stmts[0], 1, Semi);
      StmtsLayeredClean(stmts[1..]);
    }
  }

  lemma LayeredFirst(c: Cst, level: nat)
    requires Layered(c, level)
    ensures HasPrefix(First(c))
    decreases c
  {
    match c
    case CCall(callee, _, _) => LayeredFirst(callee, 1);
    case CBin(op, l, _) => LayeredFirst(l, OpLbp(op));
    case _ =>
  }

  lemma {:induction false} LayeredIsLoose(c: Cst, level: nat)
    requires Layered(c, level)
    ensures Loose(c, level)
    decreases c, 1
  {
    match c
    case CParen(e) =>
      LayeredIsLoose(e, 1);
      LayeredEnds(e, RParen);
    case CCall(callee, args, commas) =>
      LayeredIsLoose(callee, 1);
      ArgsLayeredLoose(args, commas);
      ArgsLayeredClean(args, commas);
      CleanNotCut(args);
    case CBin(op, l, r) =>
      LayeredLower(l, OpLbp(op), level);
      LayeredIsLoose(l, level);
      LayeredCloses(l, OpLbp(op), Op(op));
      LayeredIsLoose(r, OpLbp(op) + 1);
    case CIf(cond, thenStmts, _, elseStmts, _) =>
      LayeredIsLoose(cond, 1);
      LayeredEnds(cond, RParen);
      StmtsLayeredLoose(thenStmts);
      StmtsLayeredLoose(elseStmts);
    case CDef(_, _, _, _, body) => StmtsLayeredLoose(body);
    case _ =>
  }

  /** Where nothing binds, a whole expression ends. */
  lemma LayeredEnds(c: Cst, t: Token)
    requires Layered(c, 1) && Lbp(t) == 0 && t != Bad && InTable(t)
    ensures Ends(c, t, 0) && Tree(c) != Null
  {
    LayeredCloses(c, 1, t);
    CleanNotNull(c);
  }

  lemma {:induction false} ArgsLayeredLoose(args: seq<Cst>, commas: seq<bool>)
    requires ArgsLayered(args, commas)
    ensures LooseArgs(args, commas)
    decreases args, 0
  {
    if |args| > 0 {
      LayeredIsLoose(args[0], 1);
      LayeredFirst(args[0], 1);
      ArgsLayeredLoose(args[1..], commas[1..]);
      if |args| > 1 {
        LayeredFirst(args[1], 1);
      }
      LayeredEnds(args[0], AfterArg(args, commas));
    }
  }

  lemma {:induction false} StmtsLayeredLoose(stmts: seq<Cst>)
    requires StmtsLayered(stmts)
    ensures LooseStmts(stmts)
    decreases stmts, 0
  {
    if |stmts| > 0 {
      LayeredIsLoose(stmts[0], 1);
      LayeredFirst(stmts[0], 1);
      LayeredEnds(stmts[0], Semi);
      StmtsLayeredLoose(stmts[1..]);
    }
  }

  lemma {:induction false} CleanIsLayered(c: Cst, level: nat)
    requires Loose(c, level) && Clean(c)
    ensures Layered(c, level)
    decreases c, 1
  {
    match c
    case CParen(e) => CleanIsLayered(e, 1);
    case CCall(callee, args, commas) =>
      CleanNotCut(args);
      CleanCallee(callee, level);
      CleanIsLayered(callee, level);
      LayeredTop(callee, level, 1);
      ArgsCleanLayered(args, commas);
    case CBin(op, l, r) =>
      CleanIsLayered(l, level);
      CleanLeft(l, op);
      LayeredTop(l, level, OpLbp(op));
      CleanIsLayered(r, OpLbp(op) + 1);
    case CIf(cond, thenStmts, _, elseStmts, again) =>
      CleanIsLayered(cond, 1);
      StmtsCleanLayered(thenStmts);
      StmtsCleanLayered(elseStmts);
      CleanNotCut(elseStmts);
    case CDef(_, _, _, _, body) => StmtsCleanLayered(body);
    case _ =>
  }

  /** What can be called is a variable, perhaps in parentheses. */
  lemma CleanCallee(c: Cst, level: nat)
    requires Loose(c, level) && Clean(c) && Tree(c).Var?
    ensures c.CId? || c.CParen?
  {}

  lemma CleanLeft(l: Cst, op: BinOp)
    requires Clean(l) && Closes(l, Op(op))
    ensures l.CBin? ==> OpLbp(op) <= OpLbp(l.op)
  {
    if l.CBin? {
      assert Clean(l.right) && Ends(l.right, Op(op), OpLbp(l.op));
    }
  }

  lemma LayeredTop(c: Cst, level: nat, top: nat)
    requires Layered(c, level) && (c.CBin? ==> top <= OpLbp(c.op))
    ensures Layered(c, top)
  {}

  lemma {:induction false} ArgsCleanLayered(args: seq<Cst>, commas: seq<bool>)
    requires LooseArgs(args, commas) && AllClean(args)
    ensures ArgsLayered(args, commas)
    decreases args, 0
  {
    if |args| > 0 {
      CleanIsLayered(args[0], 1);
      CleanNotNull(args[0]);
      ArgsCleanLayered(args[1..], commas[1..]);
    }
  }

  lemma {:induction false} StmtsCleanLayered(stmts: seq<Cst>)
    requires LooseStmts(stmts) && AllClean(stmts)
    ensures StmtsLayered(stmts)
    decreases stmts, 0
  {
    if |stmts| > 0 {
      CleanIsLayered(stmts[0], 1);
      StmtsCleanLayered(stmts[1..]);
    }
  }

  /** The language is exactly what is read without error forms. */
  lemma LanguageIsCleanLoose(stmts: seq<Cst>)
    ensures IsBlock(stmts) <==> LooseStmts(stmts) && AllClean(stmts)
  {
    BlockOfPowers(stmts);
    if StmtsLayered(stmts) {
      StmtsLayeredClean(stmts);
      StmtsLayeredLoose(stmts);
    }
    if LooseStmts(stmts) && AllClean(stmts) {
      StmtsCleanLayered(stmts);
    }
  }

  // ---------- Expressions ----------

  /** The layer of the language that is parsed for right binding power `rbp`. */
  predicate InLayer(c: Cst, rbp: nat) {
    if rbp == 0 then IsExpr(c) else if rbp == 1 then IsTerm0(c) else if rbp == 2 then IsTerm1(c) else IsTerm2(c)
  }

  /** `t` can follow an operand of that layer: it is no operator of the layer, and starts no call. */
  predicate CanFollow(t: Token, rbp: nat) {
    match t
    case Bad => false
    case ElseKw => false
    case LParen => false
    case Op(CmpLt) => rbp >= 1
    case Op(Add) => rbp >= 2
    case Op(Sub) => rbp >= 2
    case Op(_) => rbp >= 3
    case _ => true
  }

  lemma FollowByPower(t: Token, rbp: nat)
    requires rbp < 10
    ensures CanFollow(t, rbp) <==> t != Bad && InTable(t) && Lbp(t) <= rbp
  {}

  lemma InLayerByPower(c: Cst, rbp: nat)
    ensures InLayer(c, rbp) <==> Layered(c, rbp + 1)
  {
    LayersOfPowers(c);
  }

  /** `c` derives the tokens before `rest` in its layer, and the next token does not go on in it. */
  predicate Derives(c: Cst, toks: seq<Token>, rbp: nat, n: Node, rest: seq<Token>) {
    InLayer(c, rbp) && toks == Yield(c, rest) && Tree(c) == n && CanFollow(Head(rest), rbp)
  }

  lemma DerivesEnds(c: Cst, toks: seq<Token>, rbp: nat, n: Node, rest: seq<Token>)
    requires Derives(c, toks, rbp, n, rest) && rbp < 10
    ensures Expression(Live(toks, false), rbp) == (n, Live(rest, false))
  {
    InLayerByPower(c, rbp);
    FollowByPower(Head(rest), rbp);
    LayeredIsLoose(c, rbp + 1);
    LayeredCloses(c, rbp + 1, Head(rest));
    Whole(c, rest, false, rbp);
  }

  lemma ReadIsDerived(toks: seq<Token>, rbp: nat, n: Node, rest: seq<Token>) returns (c: Cst)
    requires rbp < 10 && Expression(Live(toks, false), rbp) == (n, Live(rest, false))
    ensures Derives(c, toks, rbp, n, rest)
  {
    assert Head(toks) != Bad;
    c := ExpressionSound(Live(toks, false), rbp);
    hide Expression, Layered, Loose, Clean, InLayer, CanFollow, Ends, Yield, Tree;
    CleanIsLayered(c, rbp + 1);
    EndsNotBad(c, Head(rest), rbp);
    InLayerByPower(c, rbp);
    FollowByPower(Head(rest), rbp);
  }

  /** The Pratt loop returns `n` and stops at `rest` exactly when the layered grammar derives `n` that far. */
  lemma PrattIsLayered(toks: seq<Token>, rbp: nat, n: Node, rest: seq<Token>)
    requires rbp < 10
    ensures Expression(Live(toks, false), rbp) == (n, Live(rest, false)) <==>
      exists c :: Derives(c, toks, rbp, n, rest)
  {
    hide Expression, Derives;
    if Expression(Live(toks, false), rbp) == (n, Live(rest, false)) {
      var c := ReadIsDerived(toks, rbp, n, rest);
    }
    forall c | Derives(c, toks, rbp, n, rest)
      ensures Expression(Live(toks, false), rbp) == (n, Live(rest, false))
    {
      DerivesEnds(c, toks, rbp, n, rest);
    }
  }

  /** The layered grammar is unambiguous: the tokens fix the tree and where it ends. */
  lemma Unambiguous(c: Cst, d: Cst, toks: seq<Token>, rbp: nat, n: Node, m: Node, rest: seq<Token>, stop: seq<Token>)
    requires Derives(c, toks, rbp, n, rest) && Derives(d, toks, rbp, m, stop) && rbp < 10
    ensures n == m && rest == stop
  {
    DerivesEnds(c, toks, rbp, n, rest);
    DerivesEnds(d, toks, rbp, m, stop);
  }

  // ---------- Whole sources ----------

  /** The statements are what `parse` reads of the tokens before `rest`, which is empty or a stray brace on. */
  predicate ReadAs(stmts: seq<Cst>, toks: seq<Token>, rest: seq<Token>) {
    LooseStmts(stmts) && !Cut(stmts) && toks == YieldStmts(stmts, rest) && EndsBlock(Head(rest))
  }

  lemma ReadAsParsed(stmts: seq<Cst>, toks: seq<Token>, rest: seq<Token>)
    requires ReadAs(stmts, toks, rest)
    ensures Program(toks) == (Block(Trees(stmts)), Live(rest, !AllClean(stmts)))
  {
    StmtsHead(stmts, rest);
    BodyWhole(stmts, rest, false);
  }

  lemma ParsedReadAs(toks: seq<Token>) returns (stmts: seq<Cst>)
    requires Program(toks).1.Live?
    ensures ReadAs(stmts, toks, Program(toks).1.toks)
  {
    stmts := BodySound(Start(toks));
  }

  /**
   * What `parse` accepts, on the tokens: a source is accepted with the tree `n`, the rest `rest` and the
   * error flag `err` exactly when it is read as some statements, perhaps with error forms, whose tree is
   * `n`, and the flag tells whether there are error forms.
   */
  lemma AcceptedExactly(toks: seq<Token>, n: Node, rest: seq<Token>, err: bool)
    ensures Program(toks) == (n, Live(rest, err)) <==>
      exists stmts :: ReadAs(stmts, toks, rest) && n == Block(Trees(stmts)) && err == !AllClean(stmts)
  {
    if Program(toks) == (n, Live(rest, err)) {
      var stmts := ParsedReadAs(toks);
      ReadAsParsed(stmts, toks, rest);
    }
    forall stmts | ReadAs(stmts, toks, rest) && n == Block(Trees(stmts)) && err == !AllClean(stmts)
      ensures Program(toks) == (n, Live(rest, err))
    {
      ReadAsParsed(stmts, toks, rest);
    }
  }

  /** A source makes the parser stop, or crash, exactly when it can be read in no way. */
  lemma RejectedExactly(toks: seq<Token>)
    ensures Program(toks).1.Dead? <==> forall stmts, rest :: !ReadAs(stmts, toks, rest)
  {
    if Program(toks).1.Live? {
      var stmts := ParsedReadAs(toks);
    }
    forall stmts, rest | ReadAs(stmts, toks, rest)
      ensures Program(toks).1.Live?
    {
      ReadAsParsed(stmts, toks, rest);
    }
  }

  /** The tokens before `rest` are a program with the tree `n`; `rest` is empty, or starts with a stray brace. */
  predicate Sentence(stmts: seq<Cst>, toks: seq<Token>, n: Node, rest: seq<Token>) {
    IsBlock(stmts) && toks == YieldStmts(stmts, rest) && EndsBlock(Head(rest)) && n == Block(Trees(stmts))
  }

  /** A source is accepted without an error exactly when the grammar derives it. */
  lemma ProgramIsSentence(toks: seq<Token>, n: Node, rest: seq<Token>)
    ensures Program(toks) == (n, Live(rest, false)) <==> exists stmts :: Sentence(stmts, toks, n, rest)
  {
    AcceptedExactly(toks, n, rest, false);
    forall stmts
      ensures Sentence(stmts, toks, n, rest) <==> ReadAs(stmts, toks, rest) && n == Block(Trees(stmts)) && AllClean(stmts)
    {
      LanguageIsCleanLoose(stmts);
      CutNotClean(stmts);
    }
    hide *;
  }

  /** An accepted source, with its tree and rest, is a sentence exactly when no error form had to be read. */
  lemma ErrorFlagDecides(stmts: seq<Cst>, toks: seq<Token>, rest: seq<Token>)
    requires ReadAs(stmts, toks, rest)
    ensures AllClean(stmts) <==> exists cs, n, stop :: Sentence(cs, toks, n, stop)
    ensures forall cs, n, stop | Sentence(cs, toks, n, stop) :: n == Block(Trees(stmts)) && stop == rest
  {
    ReadAsParsed(stmts, toks, rest);
    if AllClean(stmts) {
      LanguageIsCleanLoose(stmts);
      assert Sentence(stmts, toks, Block(Trees(stmts)), rest);
    }
    forall cs, n, stop | Sentence(cs, toks, n, stop)
      ensures AllClean(stmts) && n == Block(Trees(stmts)) && stop == rest
    {
      ProgramIsSentence(toks, n, stop);
    }
  }

  // ---------- Where errors are read past ----------

  /** A source of one statement. */
  lemma OneStatement(c: Cst)
    requires Loose(c, 1) && Closes(c, Semi) && !c.CBad? && Tree(c) != Null
    ensures Program(Yield(c, [Semi])) == (Block([Tree(c)]), Live([], !Clean(c)))
  {
    LooseFirst(c, 1);
    StmtsCons(c, [], []);
    assert [c] + [] == [c] && YieldStmts([], []) == [] && Trees([]) == [] && [Semi] + [] == [Semi];
    hide Loose, Closes, Tree, Clean, Yield, Program, Trees;
    ReadAsParsed([c], Yield(c, [Semi]), []);
    assert [Tree(c)] + [] == [Tree(c)];
  }

  /**
   * `if (cond) { .. } else { .. };` is accepted and loses its `else`, whenever a statement of the `else`
   * block cannot be parsed and what is left of the block, up to its brace, can: only the second of the two
   * calls of `block` is tested.
   */
  lemma ElseErrorGoesUnnoticed(cond: Cst, thenStmts: seq<Cst>, elseStmts: seq<Cst>, again: seq<Cst>)
    requires Loose(cond, 1) && Ends(cond, RParen, 0) && LooseStmts(thenStmts)
    requires LooseStmts(elseStmts) && Cut(elseStmts) && LooseStmts(again) && !Cut(again)
    ensures
      var c := CIf(cond, thenStmts, true, elseStmts, again);
      Program(Yield(c, [Semi])) == (Block([If(Tree(cond), BlockTree(thenStmts), Null)]), Live([], true))
  {
    CutNotClean(elseStmts);
    OneStatement(CIf(cond, thenStmts, true, elseStmts, again));
  }

  /** Of an `else` block, nothing but the second call's result matters: the `if` fails exactly when that is NULL. */
  lemma ElseFailsExactly(cond: Cst, thenStmts: seq<Cst>, elseStmts: seq<Cst>, again: seq<Cst>, k: seq<Token>)
    requires Loose(cond, 1) && Ends(cond, RParen, 0) && LooseStmts(thenStmts) && Head(k) != Bad
    requires LooseStmts(elseStmts) && LooseStmts(again) && (Cut(elseStmts) || again == [])
    ensures
      var c := CIf(cond, thenStmts, true, elseStmts, again);
      var (n, s) := IfPrefix(Live([LParen] + Yield(cond, [RParen] + IfYield(c, k)), false));
      s == Live(k, !Clean(c)) && (n == Null <==> Cut(again))
  {
    IfWhole(CIf(cond, thenStmts, true, elseStmts, again), k, false);
  }

  /** NULL is let through as a condition, */
  lemma NullCondition(c: Cst)
    requires Loose(c, 1) && Ends(c, RParen, 0) && Tree(c) == Null
    ensures Program(Yield(CIf(c, [], false, [], []), [Semi])) == (Block([If(Null, Block([]), Null)]), Live([], true))
  {
    hide Program, Yield;
    NullNotClean(c);
    assert BlockTree([]) == Block([]);
    OneStatement(CIf(c, [], false, [], []));
  }

  /** as the block of an `if`, */
  lemma NullThenBlock(cond: Cst, stmts: seq<Cst>)
    requires Loose(cond, 1) && Ends(cond, RParen, 0) && LooseStmts(stmts) && Cut(stmts)
    ensures Program(Yield(CIf(cond, stmts, false, [], []), [Semi])) == (Block([If(Tree(cond), Null, Null)]), Live([], true))
  {
    hide Program, Yield;
    CutNotClean(stmts);
    OneStatement(CIf(cond, stmts, false, [], []));
  }

  /** as the body of a function, */
  lemma NullBody(name: string, stmts: seq<Cst>)
    requires LooseStmts(stmts) && Cut(stmts)
    ensures Program(Yield(CDef(name, [], [], true, stmts), [Semi])) == (Block([FuncDef(Proto(name, []), Null)]), Live([], true))
  {
    hide Program, Yield;
    CutNotClean(stmts);
    OneStatement(CDef(name, [], [], true, stmts));
  }

  /** and, in parentheses, as the left operand of an operator. */
  lemma NullOperand(c: Cst, op: BinOp, v: nat)
    requires Loose(c, 1) && Ends(c, RParen, 0) && Tree(c) == Null
    ensures Program(Yield(CBin(op, CParen(c), CNum(v)), [Semi])) == (Block([Bin(op, Null, Dbl(v))]), Live([], true))
  {
    hide Program, Yield;
    NullNotClean(c);
    assert Closes(CNum(v), Semi) && Ends(CNum(v), Semi, OpLbp(op));
    OneStatement(CBin(op, CParen(c), CNum(v)));
  }
}
