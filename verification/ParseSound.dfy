/**
 * Whatever the parser accepts is a derivation, perhaps with error forms, and the result is its tree; the
 * error flag is raised exactly if an error form occurs.
 */
module ParseSound {
  import opened Wrappers
  import opened Ast
  import opened LexSpec
  import opened ParseSpec
  import opened Grammar
  import opened ParseComplete

  /** Parsing is alive, and has not failed at the end of the source. */
  predicate Good(s: PState) {
    s.Live? && (s.err ==> |s.toks| > 0)
  }

  lemma ScanLive(s: PState)
    requires s.Scan().Live?
    ensures s.Live? && s.Scan().err == s.err
    ensures s.Tok() != Bad ==> s.Scan().Tok() != Bad
    ensures |s.toks| > 0 ==> s.toks == [s.Tok()] + s.Scan().toks && Head(s.Scan().toks) != Bad
  {}

  lemma ExpectLive(s: PState, t: Token)
    requires s.Expect(t).Live? && t != Eos
    ensures s.Live? && s.Expect(t).err == s.err && |s.toks| > 0
    ensures s.toks == [t] + s.Expect(t).toks && Head(s.Expect(t).toks) != Bad
  {}

  lemma {:induction false} ExpressionSound(s: PState, rbp: nat) returns (c: Cst)
    requires Good(Expression(s, rbp).1) && s.Tok() != Bad && rbp < 10
    ensures
      var (n, r) := Expression(s, rbp);
      && s.Live? && Loose(c, rbp + 1) && s.toks == Yield(c, r.toks) && Ends(c, Head(r.toks), rbp)
      && n == Tree(c) && r.err == (s.err || !Clean(c))
    decreases s.Size(), 1
  {
    var t, s1 := s.Tok(), s.Scan();
    ScanLive(s);
    if HasPrefix(t) {
      var (left, s2) := Prefix(t, s1);
      var l := PrefixSound(t, s1, rbp + 1);
      c := InfixSound(l, s2, rbp);
    } else {
      c := CBad(t);
    }
  }

  lemma {:induction false} InfixSound(l: Cst, s: PState, rbp: nat) returns (c: Cst)
    requires s.Live? && Loose(l, rbp + 1) && !l.CBad? && Closes(l, Head(s.toks)) && (s.err || Clean(l))
    requires Good(InfixLoop(Tree(l), s, rbp).1) && rbp < 10
    ensures
      var (n, r) := InfixLoop(Tree(l), s, rbp);
      && Loose(c, rbp + 1) && Yield(c, r.toks) == Yield(l, s.toks) && Ends(c, Head(r.toks), rbp)
      && n == Tree(c) && r.err == (s.err || !Clean(c)) && (Clean(c) ==> Clean(l))
    decreases s.Size(), 1
  {
    hide Expression, CallInfix, Loose, Clean, Yield, Tree;
    if rbp < Lbp(s.Tok()) {
      var b, s2 := RoundSound(l, s, rbp);
      c := InfixSound(b, s2, rbp);
    } else {
      c := l;
    }
  }

  lemma OpRound(left: Node, s: PState, rbp: nat)
    requires InfixLoop(left, s, rbp).1.Live? && s.Tok().Op? && rbp < Lbp(s.Tok())
    ensures
      var (right, r) := Expression(s.Scan(), Lbp(s.Tok()));
      && s.Scan().Live? && r.Live?
      && InfixLoop(left, s, rbp) ==
        if right == Null then InfixLoop(Null, r.Fail(), rbp) else InfixLoop(Bin(s.Tok().op, left, right), r, rbp)
  {
    hide Expression;
  }

  lemma CallRound(left: Node, s: PState, rbp: nat)
    requires InfixLoop(left, s, rbp).1.Live? && !s.Tok().Op? && rbp < Lbp(s.Tok())
    ensures s.Is(LParen) && s.Scan().Live? && CallInfix(left, s.Scan()).1.Live?
    ensures InfixLoop(left, s, rbp) == InfixLoop(CallInfix(left, s.Scan()).0, CallInfix(left, s.Scan()).1, rbp)
  {
    hide CallInfix;
  }

  /** One round of the loop, which leaves `s2`. */
  lemma {:induction false} RoundSound(l: Cst, s: PState, rbp: nat) returns (c: Cst, s2: PState)
    requires s.Live? && Loose(l, rbp + 1) && !l.CBad? && Closes(l, Head(s.toks)) && (s.err || Clean(l))
    requires Good(InfixLoop(Tree(l), s, rbp).1) && rbp < 10 && rbp < Lbp(s.Tok())
    ensures s2.Live? && s2.Size() < s.Size() && InfixLoop(Tree(l), s, rbp) == InfixLoop(Tree(c), s2, rbp)
    ensures !c.CBad? && Loose(c, rbp + 1) && Yield(c, s2.toks) == Yield(l, s.toks) && Closes(c, Head(s2.toks))
    ensures s2.err == (s.err || !Clean(c)) && (Clean(c) ==> Clean(l))
    decreases s.Size(), 0
  {
    hide Expression, CallInfix, InfixLoop, PState.Scan, Loose, Ends, Closes, Yield, Tree, Clean;
    var t, s1 := s.Tok(), s.Scan();
    if t.Op? {
      OpRound(Tree(l), s, rbp);
      ScanLive(s);
      var r := ExpressionSound(s1, OpLbp(t.op));
      NullNotClean(r);
      s2 := Expression(s1, OpLbp(t.op)).1;
      c := CBin(t.op, l, r);
      BinShape(t.op, l, r, rbp + 1, s2.toks);
      assert s.toks == [t] + s1.toks && Closes(l, t);
    } else {
      CallRound(Tree(l), s, rbp);
      ScanLive(s);
      s2 := CallInfix(Tree(l), s1).1;
      c := CallSound(l, s1, rbp + 1);
    }
  }

  /** What a binary derivation is made of. */
  lemma BinShape(op: BinOp, l: Cst, r: Cst, level: nat, k: seq<Token>)
    ensures Yield(CBin(op, l, r), k) == Yield(l, [Op(op)] + Yield(r, k))
    ensures Closes(CBin(op, l, r), Head(k)) <==> Head(k) != Bad && Ends(r, Head(k), OpLbp(op))
    ensures Ends(r, Head(k), OpLbp(op)) ==> Head(k) != Bad
    ensures Clean(CBin(op, l, r)) <==> Clean(l) && Clean(r)
    ensures Tree(CBin(op, l, r)) == if Tree(r) == Null then Null else Bin(op, Tree(l), Tree(r))
    ensures Loose(CBin(op, l, r), level) <==>
      level <= OpLbp(op) && !l.CBad? && Loose(l, level) && Closes(l, Op(op)) && Loose(r, OpLbp(op) + 1)
  {
    if Ends(r, Head(k), OpLbp(op)) {
      EndsNotBad(r, Head(k), OpLbp(op));
    }
  }

  lemma {:induction false} CallSound(l: Cst, s: PState, level: nat) returns (c: Cst)
    requires s.Live? && Loose(l, level) && !l.CBad? && Closes(l, LParen) && s.Tok() != Bad && (s.err || Clean(l))
    requires Good(CallInfix(Tree(l), s).1)
    ensures
      var (n, r) := CallInfix(Tree(l), s);
      && c.CCall? && Loose(c, level) && Yield(c, r.toks) == Yield(l, [LParen] + s.toks) && Closes(c, Head(r.toks))
      && n == Tree(c) && r.err == (s.err || !Clean(c)) && (Clean(c) ==> Clean(l))
    decreases s.Size(), 3
  {
    hide ArgsLoop, CallInfix, Loose, Ends, Closes, Yield, Tree, Clean, LooseArgs, PState.Expect;
    CallParts(Tree(l), s);
    var (all, s1) := ArgsLoop([], s);
    var args, commas := ArgsSound([], s);
    assert [] + Trees(args) == Trees(args);
    CutNotClean(args);
    c := CCall(l, args, commas);
    if all.Some? {
      ExpectLive(s1, RParen);
    } else {
      EndsNotBad(args[|args| - 1], Head(s1.toks), 0);
    }
    CallShape(c, level, CallInfix(Tree(l), s).1.toks);
  }

  /** If a call is parsed, its parts have been. */
  lemma CallParts(left: Node, s: PState)
    requires CallInfix(left, s).1.Live?
    ensures
      var (all, s1) := ArgsLoop([], s);
      && s1.Live? && (all.None? ==> CallInfix(left, s) == (Null, s1.Fail()))
      && (all.Some? ==> left.Var? && CallInfix(left, s) == (Call(left.name, all.value), s1.Expect(RParen)))
  {
    hide ArgsLoop;
  }

  lemma EndsNotBad(c: Cst, t: Token, rbp: nat)
    requires Ends(c, t, rbp)
    ensures t != Bad
  {}

  lemma {:induction false} ArgsSound(acc: seq<Node>, s: PState) returns (args: seq<Cst>, commas: seq<bool>)
    requires |acc| <= MAX_FUNC_PARAMS && Good(ArgsLoop(acc, s).1) && s.Tok() != Bad
    ensures
      var (all, r) := ArgsLoop(acc, s);
      && s.Live? && LooseArgs(args, commas) && s.toks == YieldArgs(args, commas, r.toks) && ArgsEnd(args, r.toks)
      && all == (if Cut(args) then None else Some(acc + Trees(args)))
      && |acc| + |args| <= MAX_FUNC_PARAMS + (if Cut(args) then 1 else 0) && r.err == (s.err || !AllClean(args))
    decreases s.Size(), 2
  {
    hide Expression, ArgsLoop, Loose, Ends, Yield, YieldArgs, LooseArgs, ArgsEnd, ArgEnds, Cut, AllClean, Clean, Tree, Trees;
    ArgsRound(acc, s);
    if s.Is(RParen) {
      args, commas := [], [];
      NoArgs(s.toks);
      assert acc + [] == acc;
    } else {
      var (node, s1) := Expression(s, 0);
      var arg := ExpressionSound(s, 0);
      YieldFirst(arg, s1.toks);
      if node == Null {
        args, commas := [arg], [false];
        OneArg(arg, s1.toks);
        NullNotClean(arg);
      } else {
        EndsNotBad(arg, Head(s1.toks), 0);
        ScanIf(s1, Comma);
        assert s1.Is(Comma) <==> Head(s1.toks) == Comma;
        var more, moreCommas := ArgsSound(acc + [node], s1.Skip(Comma));
        args, commas := [arg] + more, [s1.Is(Comma)] + moreCommas;
        ArgsCons(arg, s1.Is(Comma), more, moreCommas, ArgsLoop(acc, s).1.toks);
        assert acc + [node] + Trees(more) == acc + ([node] + Trees(more));
      }
    }
  }

  /** One round of the loop over the arguments. */
  lemma ArgsRound(acc: seq<Node>, s: PState)
    requires Good(ArgsLoop(acc, s).1)
    ensures s.Live? && (s.Is(RParen) ==> ArgsLoop(acc, s) == (Some(acc), s))
    ensures
      var (node, s1) := Expression(s, 0);
      !s.Is(RParen) ==>
        && Good(s1) && |s.toks| > 0 && s1.Size() < s.Size()
        && (node == Null ==> ArgsLoop(acc, s) == (None, s1))
        && (node != Null ==> |acc| < MAX_FUNC_PARAMS && s1.Skip(Comma).Live? &&
                             ArgsLoop(acc, s) == ArgsLoop(acc + [node], s1.Skip(Comma)))
  {
    hide Expression;
  }

  lemma ScanIf(s: PState, t: Token)
    requires s.Skip(t).Live? && s.Tok() != Bad && t != Eos
    ensures s.Live? && s.Skip(t).Tok() != Bad && s.Skip(t).err == s.err
    ensures s.toks == if s.Is(t) then [t] + s.Skip(t).toks else s.Skip(t).toks
  {}

  lemma NoArgs(k: seq<Token>)
    ensures LooseArgs([], []) && YieldArgs([], [], k) == k && (ArgsEnd([], k) <==> Head(k) == RParen)
    ensures Trees([]) == [] && AllClean([]) && !Cut([])
  {}

  lemma OneArg(arg: Cst, k: seq<Token>)
    ensures YieldArgs([arg], [false], k) == Yield(arg, k) && Cut([arg]) == (Tree(arg) == Null)
    ensures AllClean([arg]) == Clean(arg) && (ArgsEnd([arg], k) <==>
      if Tree(arg) == Null then Ends(arg, Head(k), 0) else Head(k) == RParen)
    ensures LooseArgs([arg], [false]) <==>
      Loose(arg, 1) && First(arg) != RParen && (Tree(arg) == Null || ArgEnds(arg, false, RParen))
  {
    assert AllClean([arg][1..]) && LooseArgs([arg][1..], [false][1..]);
    hide Loose, Clean, ArgEnds;
  }

  /** One more argument in front. */
  lemma ArgsCons(arg: Cst, comma: bool, more: seq<Cst>, commas: seq<bool>, k: seq<Token>)
    requires LooseArgs(more, commas) && ArgsEnd(more, k) && Loose(arg, 1) && First(arg) != RParen && Tree(arg) != Null
    requires
      var rest := YieldArgs(more, commas, k);
      Ends(arg, Head(if comma then [Comma] + rest else rest), 0) && (comma || Head(rest) != Comma)
    ensures
      var args, rest := [arg] + more, YieldArgs(more, commas, k);
      && LooseArgs(args, [comma] + commas) && Cut(args) == Cut(more) && ArgsEnd(args, k)
      && YieldArgs(args, [comma] + commas, k) == Yield(arg, if comma then [Comma] + rest else rest)
      && Trees(args) == [Tree(arg)] + Trees(more) && (AllClean(args) <==> Clean(arg) && AllClean(more))
  {
    hide Ends, Loose, Yield, Clean, Tree;
    var args := [arg] + more;
    assert args[1..] == more && ([comma] + commas)[1..] == commas;
    ArgsHead(more, commas, k);
    if |more| > 0 {
      CutTail(args);
    }
  }

  lemma {:induction false} PrefixSound(t: Token, s: PState, level: nat) returns (c: Cst)
    requires HasPrefix(t) && s.Live? && s.Tok() != Bad && Good(Prefix(t, s).1)
    ensures
      var (n, r) := Prefix(t, s);
      && !c.CBad? && Loose(c, level) && Yield(c, r.toks) == [t] + s.toks && Closes(c, Head(r.toks))
      && n == Tree(c) && r.err == (s.err || !Clean(c))
    decreases s.Size(), 7
  {
    hide IfPrefix, DefPrefix, Expression;
    match t
    case Num(v) => c := CNum(v);
    case Id(name) => c := CId(name);
    case LParen =>
      ExpectLive(Expression(s, 0).1, RParen);
      var e := ExpressionSound(s, 0);
      c := CParen(e);
    case IfKw => c := IfSound(s);
    case DefKw => c := DefSound(s);
  }

  lemma {:induction false} StmtsSound(acc: seq<Node>, s: PState) returns (stmts: seq<Cst>)
    requires StmtsLoop(acc, s).1.Live? && s.Tok() != Bad
    ensures
      var (n, r) := StmtsLoop(acc, s);
      && LooseStmts(stmts) && s.Live? && s.toks == YieldStmts(stmts, r.toks) && Head(r.toks) != Bad
      && (Cut(stmts) || EndsBlock(Head(r.toks))) && n == (if Cut(stmts) then Null else Block(acc + Trees(stmts)))
      && r.err == (s.err || !AllClean(stmts))
    decreases s.Size(), 2
  {
    hide Expression, StmtsLoop, Loose, Ends, Yield, YieldStmts, LooseStmts, Cut, AllClean, Clean, Tree, Trees;
    StmtsRound(acc, s);
    NoStmts(s.toks);
    if EndsBlock(s.Tok()) {
      stmts := [];
      assert acc + [] == acc;
    } else {
      var (node, s1) := Expression(s, 0);
      var s2 := s1.Expect(Semi);
      ExpectLive(s1, Semi);
      var stmt := ExpressionSound(s, 0);
      YieldFirst(stmt, s1.toks);
      if node == Null {
        stmts := [stmt];
        assert [stmt] + [] == [stmt];
        NullNotClean(stmt);
        NoStmts(s2.toks);
        StmtsCons(stmt, [], s2.toks);
      } else {
        var more := StmtsSound(acc + [node], s2);
        stmts := [stmt] + more;
        StmtsCons(stmt, more, StmtsLoop(acc, s).1.toks);
        assert acc + [node] + Trees(more) == acc + ([node] + Trees(more));
      }
    }
  }

  /** One round of the loop over the statements. */
  lemma StmtsRound(acc: seq<Node>, s: PState)
    requires StmtsLoop(acc, s).1.Live?
    ensures s.Live? && s.Tok() == Head(s.toks) && (EndsBlock(s.Tok()) ==> StmtsLoop(acc, s) == (Block(acc), s))
    ensures
      var (node, s1) := Expression(s, 0);
      var s2 := s1.Expect(Semi);
      !EndsBlock(s.Tok()) ==>
        && s2.Live? && |s.toks| > 0 && s2.Size() < s.Size()
        && StmtsLoop(acc, s) == if node == Null then (Null, s2) else StmtsLoop(acc + [node], s2)
  {
    hide Expression;
  }

  /** One more statement in front. */
  lemma StmtsCons(stmt: Cst, more: seq<Cst>, k: seq<Token>)
    requires LooseStmts(more) && Loose(stmt, 1) && Ends(stmt, Semi, 0) && !EndsBlock(First(stmt))
    requires Tree(stmt) == Null ==> more == []
    ensures
      var stmts := [stmt] + more;
      && LooseStmts(stmts) && Cut(stmts) == (if more == [] then Tree(stmt) == Null else Cut(more))
      && YieldStmts(stmts, k) == Yield(stmt, [Semi] + YieldStmts(more, k))
      && Trees(stmts) == [Tree(stmt)] + Trees(more) && (AllClean(stmts) <==> Clean(stmt) && AllClean(more))
  {
    var stmts := [stmt] + more;
    assert stmts[1..] == more;
    if |more| > 0 {
      CutTail(stmts);
    }
    hide Ends, Loose, Yield;
  }

  /** The statements of a block. */
  lemma {:induction false} BodySound(s: PState) returns (stmts: seq<Cst>)
    requires BlockBody(s).1.Live? && s.Tok() != Bad
    ensures
      var (n, r) := BlockBody(s);
      && LooseStmts(stmts) && s.Live? && s.toks == YieldStmts(stmts, r.toks) && Head(r.toks) != Bad
      && (Cut(stmts) || EndsBlock(Head(r.toks))) && n == BlockTree(stmts) && r.err == (s.err || !AllClean(stmts))
    decreases s.Size(), 3
  {
    hide StmtsLoop;
    stmts := StmtsSound([], s);
    assert [] + Trees(stmts) == Trees(stmts);
  }

  /** A block between braces, read from `s` to `r`. */
  lemma {:induction false} BlockSound(s: PState, r: PState) returns (stmts: seq<Cst>)
    requires r == BlockBody(s.Expect(LCurl)).1.Expect(RCurl) && r.Live?
    ensures
      && LooseStmts(stmts) && s.Live? && s.toks == [LCurl] + YieldStmts(stmts, [RCurl] + r.toks)
      && BlockBody(s.Expect(LCurl)).0 == BlockTree(stmts) && Head(r.toks) != Bad && r.err == (s.err || !AllClean(stmts))
    decreases s.Size(), 4
  {
    hide BlockBody;
    var s1 := s.Expect(LCurl);
    ExpectLive(BlockBody(s1).1, RCurl);
    ExpectLive(s, LCurl);
    stmts := BodySound(s1);
  }

  /** If an `if` is parsed, its parts have been. */
  lemma IfParts(s: PState)
    requires IfPrefix(s).1.Live?
    ensures
      var (cond, s1) := Expression(s.Expect(LParen), 0);
      var (thenBlock, s2) := BlockBody(s1.Expect(RParen).Expect(LCurl));
      var s3 := s2.Expect(RCurl);
      && s3.Live?
      && IfPrefix(s) == if s3.Is(ElseKw) then ElsePart(cond, thenBlock, s3.Scan()) else (If(cond, thenBlock, Null), s3)
  {
    hide Expression, BlockBody, ElsePart;
  }

  lemma {:induction false} IfSound(s: PState) returns (c: Cst)
    requires s.Live? && IfPrefix(s).1.Live?
    ensures
      var (n, r) := IfPrefix(s);
      && c.CIf? && Loose(c, 1) && Yield(c, r.toks) == [IfKw] + s.toks && Closes(c, Head(r.toks))
      && n == Tree(c) && r.err == (s.err || !Clean(c))
    decreases s.Size(), 6
  {
    hide Expression, BlockBody, IfPrefix, ElsePart, PState.Expect, PState.Scan, Loose, Ends, Closes, Tree, Clean, Yield, LooseStmts;
    IfParts(s);
    var s0 := s.Expect(LParen);
    var (cond, s1) := Expression(s0, 0);
    var s2 := s1.Expect(RParen);
    var (thenBlock, s3) := BlockBody(s2.Expect(LCurl));
    var s4 := s3.Expect(RCurl);
    var elseStmts, again := [], [];
    if s4.Is(ElseKw) {
      ElseScans(cond, thenBlock, s4);
      elseStmts, again := ElseSound(cond, thenBlock, s4.Scan());
    }
    var thenStmts := BlockSound(s2, s4);
    ExpectLive(s1, RParen);
    ExpectLive(s, LParen);
    var e := ExpressionSound(s0, 0);
    c := CIf(e, thenStmts, s4.Is(ElseKw), elseStmts, again);
    IfLoose(c);
    IfShape(c, IfPrefix(s).1.toks);
  }

  lemma ElseScans(cond: Node, thenBlock: Node, s: PState)
    requires s.Is(ElseKw) && ElsePart(cond, thenBlock, s.Scan()).1.Live?
    ensures s.Live? && s.Scan().Live? && s.toks == [ElseKw] + s.Scan().toks && s.Scan().Size() < s.Size()
    ensures s.Scan().err == s.err
  {
    hide BlockBody;
  }

  lemma IfLoose(c: Cst)
    requires c.CIf? && Loose(c.cond, 1) && Ends(c.cond, RParen, 0) && LooseStmts(c.thenStmts)
    requires if c.hasElse then LooseStmts(c.elseStmts) && LooseStmts(c.again) else c.elseStmts == []
    requires (c.hasElse && Cut(c.elseStmts)) || c.again == []
    ensures Loose(c, 1)
  {}

  lemma {:induction false} ElseSound(cond: Node, thenBlock: Node, s: PState) returns (elseStmts: seq<Cst>, again: seq<Cst>)
    requires s.Live? && ElsePart(cond, thenBlock, s).1.Live?
    ensures
      var (n, r) := ElsePart(cond, thenBlock, s);
      && LooseStmts(elseStmts) && LooseStmts(again) && (Cut(elseStmts) || again == [])
      && s.toks == ElseYield(elseStmts, again, r.toks) && Head(r.toks) != Bad
      && n == (if Cut(again) then Null else If(cond, thenBlock, BlockTree(elseStmts)))
      && r.err == (s.err || !AllClean(elseStmts) || !AllClean(again))
    decreases s.Size(), 4
  {
    hide BlockBody;
    var s0 := s.Expect(LCurl);
    var (elseBlock, s1) := BlockBody(s0);
    var (block, s2) := BlockBody(s1);
    ExpectLive(s, LCurl);
    elseStmts := BodySound(s0);
    if Cut(elseStmts) {
      again := BodySound(s1);
    } else {
      again := [];
      SecondBlock(s1);
    }
    CutNotClean(again);
    if !Cut(again) {
      ExpectLive(s2, RCurl);
    }
  }

  lemma SecondBlock(s: PState)
    requires s.Live? && EndsBlock(Head(s.toks))
    ensures BlockBody(s) == (Block([]), s)
  {}

  lemma {:induction false} DefSound(s: PState) returns (c: Cst)
    requires s.Live? && DefPrefix(s).1.Live?
    ensures
      var (n, r) := DefPrefix(s);
      && c.CDef? && Loose(c, 1) && Yield(c, r.toks) == [DefKw] + s.toks && Closes(c, Head(r.toks))
      && n == Tree(c) && r.err == (s.err || !Clean(c))
    decreases s.Size(), 6
  {
    hide BlockBody, ParamsLoop, DefPrefix, PState.Expect, PState.Scan, LooseStmts, YieldStmts, AllClean, Trees, Expression, Cut;
    DefParts(s);
    var s1 := s.Scan();
    var s2 := s1.Expect(LParen);
    ScanLive(s);
    ExpectLive(s1, LParen);
    var (all, s3) := ParamsLoop([], s2);
    var params, commas := ParamsSound([], s2);
    assert [] + params == params;
    if all.None? || |params| == MAX_FUNC_PARAMS {
      c := CDef(s.Tok().name, params, commas, false, []);
    } else {
      ExpectLive(s3, RParen);
      var body := BlockSound(s3.Expect(RParen), DefPrefix(s).1);
      c := CDef(s.Tok().name, params, commas, true, body);
    }
  }

  /** If a definition is parsed, its parts have been. */
  lemma DefParts(s: PState)
    requires DefPrefix(s).1.Live?
    ensures s.Tok().Id? && s.Scan().Expect(LParen).Live?
    ensures
      var (all, s3) := ParamsLoop([], s.Scan().Expect(LParen));
      s3.Live? && DefPrefix(s) ==
        if all.None? || |all.value| == MAX_FUNC_PARAMS then (Null, s3.Fail())
        else
          var (body, s4) := BlockBody(s3.Expect(RParen).Expect(LCurl));
          (FuncDef(Proto(s.Tok().name, all.value), body), s4.Expect(RCurl))
  {
    hide BlockBody, ParamsLoop;
  }

  lemma {:induction false} ParamsSound(acc: seq<string>, s: PState) returns (params: seq<string>, commas: seq<bool>)
    requires ParamsLoop(acc, s).1.Live? && |acc| <= MAX_FUNC_PARAMS && s.Tok() != Bad
    ensures
      var (all, r) := ParamsLoop(acc, s);
      && s.Live? && |commas| == |params| && |acc| + |params| <= MAX_FUNC_PARAMS && r.err == s.err
      && s.toks == YieldParams(params, commas, r.toks) && Head(r.toks) != Bad && !Head(r.toks).Id?
      && (all.Some? <==> Head(r.toks) == RParen) && (all.Some? ==> all.value == acc + params)
      && (|params| > 0 && !commas[|params| - 1] ==> Head(r.toks) != Comma)
    decreases s.Size()
  {
    hide ParamsLoop, YieldParams, PState.Scan, PState.Skip;
    ParamsRound(acc, s);
    ParamsHead([], [], s.toks);
    if s.Is(RParen) || !s.Tok().Id? {
      params, commas := [], [];
      assert acc + [] == acc;
    } else {
      var s1, name := s.Scan(), s.Tok().name;
      ScanLive(s);
      ScanIf(s1, Comma);
      var more, moreCommas := ParamsSound(acc + [name], s1.Skip(Comma));
      params, commas := [name] + more, [s1.Is(Comma)] + moreCommas;
      ParamsCons(acc, name, s1.Is(Comma), more, moreCommas, ParamsLoop(acc, s).1.toks);
    }
  }

  /** One round of the loop over the parameters. */
  lemma ParamsRound(acc: seq<string>, s: PState)
    requires ParamsLoop(acc, s).1.Live?
    ensures s.Live? && (s.Is(RParen) ==> ParamsLoop(acc, s) == (Some(acc), s))
    ensures !s.Is(RParen) && !s.Tok().Id? ==> ParamsLoop(acc, s) == (None, s)
    ensures s.Tok().Id? ==>
      && |acc| < MAX_FUNC_PARAMS && s.Scan().Live? && s.Scan().Skip(Comma).Live? && |s.toks| > 0
      && s.Scan().Skip(Comma).Size() < s.Size()
      && ParamsLoop(acc, s) == ParamsLoop(acc + [s.Tok().name], s.Scan().Skip(Comma))
  {}

  /** One more parameter in front. */
  lemma ParamsCons(acc: seq<string>, name: string, comma: bool, more: seq<string>, commas: seq<bool>, k: seq<Token>)
    requires |commas| == |more|
    ensures
      var rest := YieldParams(more, commas, k);
      YieldParams([name] + more, [comma] + commas, k) == [Id(name)] + if comma then [Comma] + rest else rest
    ensures acc + [name] + more == acc + ([name] + more)
    ensures ([comma] + commas)[|more|] == if |more| == 0 then comma else commas[|more| - 1]
    ensures more == [] ==> YieldParams(more, commas, k) == k
  {
    assert ([name] + more)[1..] == more && ([comma] + commas)[1..] == commas;
  }
}
