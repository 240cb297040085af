/**
 * Parsing as functions of the tokens that remain: the Pratt loop of src/parse.c and its prefix and
 * infix handlers. The methods of module Parser are proved to compute them.
 */
module ParseSpec {
  import opened Wrappers
  import opened Ast
  import opened LexSpec

  /**
   * The parser between two steps: the tokens from the current one on (none at the end of the source),
   * and whether `err` has been called. `Dead`: the program has ended (`die`), or has crashed.
   */
  datatype PState = Live(toks: seq<Token>, err: bool) | Dead
  {
    /** The current token; at the end of the source it stays `Eos`. */
    function Tok(): Token {
      if Live? && |toks| > 0 then toks[0] else Eos
    }

    predicate Is(t: Token) {
      Tok() == t
    }

    /** Moves to the next token; a character that is no token ends the program. */
    function Scan(): (s: PState)
      ensures s.Live? ==> Live? && s.err == err && |s.toks| <= |toks| && (|toks| > 0 ==> s.toks == toks[1..])
    {
      if Dead? then Dead
      else if |toks| == 0 then this
      else if |toks| > 1 && toks[1] == Bad then Dead
      else Live(toks[1..], err)
    }

    /** The current token must be `t`, or the program ends. */
    function Expect(t: Token): (s: PState)
      ensures s.Live? ==> Live? && s.err == err && |s.toks| <= |toks|
    {
      if Is(t) then Scan() else Dead
    }

    /** Moves past `t` if it is the current token. */
    function Skip(t: Token): (s: PState)
      ensures s.Live? ==> Live? && s.err == err && |s.toks| <= |toks|
    {
      if Is(t) then Scan() else this
    }

    /** What `err` leaves. */
    function Fail(): (s: PState)
      ensures s.Live? <==> Live?
      ensures Live? ==> s == Live(toks, true)
    {
      if Live? then Live(toks, true) else Dead
    }

    function Size(): nat {
      if Live? then |toks| else 0
    }
  }

  const MAX_FUNC_PARAMS := 16

  /** Left binding power of a binary operator. */
  function OpLbp(op: BinOp): (p: nat)
    ensures 1 <= p <= 3
  {
    match op
    case CmpLt => 1
    case Add => 2
    case Sub => 2
    case Mul => 3
    case Div => 3
  }

  /** Left binding power, from the table of token classes. */
  function Lbp(t: Token): nat {
    match t
    case Op(op) => OpLbp(op)
    case LParen => 10
    case _ => 0
  }

  /** The table of token classes ends before `else`: looking that up is undefined behaviour. */
  predicate InTable(t: Token) {
    t != ElseKw
  }

  predicate HasPrefix(t: Token) {
    t.Num? || t.DefKw? || t.Id? || t.IfKw? || t.LParen?
  }

  /** The state after is no further back than the state before, and an error stays one. */
  predicate Forward(s: PState, r: PState) {
    r.Live? ==> s.Live? && |r.toks| <= |s.toks| && (s.err ==> r.err)
  }

  /** The main loop: a prefix form, then infix forms that bind tighter than `rbp`. */
  function Expression(s: PState, rbp: nat): (r: (Node, PState))
    ensures Forward(s, r.1) && (r.1.Live? && |s.toks| > 0 ==> |r.1.toks| < |s.toks|)
    ensures r.1.Live? && |s.toks| == 0 ==> r.0 == Null && r.1.err && |r.1.toks| == 0
    decreases s.Size(), 1
  {
    var t := s.Tok();
    var s1 := s.Scan();
    if s1.Dead? || !InTable(t) then (Null, Dead)
    else if !HasPrefix(t) then (Null, s1.Fail())
    else
      var (left, s2) := Prefix(t, s1);
      InfixLoop(left, s2, rbp)
  }

  /** The prefix form that token `t`, just scanned, starts. */
  function Prefix(t: Token, s: PState): (r: (Node, PState))
    requires HasPrefix(t)
    ensures Forward(s, r.1)
    decreases s.Size(), 5
  {
    match t
    case Num(v) => (Dbl(v), s)
    case Id(name) => (Var(name), s)
    case LParen => ParenPrefix(s)
    case IfKw => IfPrefix(s)
    case DefKw => DefPrefix(s)
  }

  function InfixLoop(left: Node, s: PState, rbp: nat): (r: (Node, PState))
    ensures Forward(s, r.1)
    decreases s.Size(), 0
  {
    if s.Dead? || !InTable(s.Tok()) then (Null, Dead)
    else if rbp < Lbp(s.Tok()) then
      var s1 := s.Scan();
      if s1.Dead? then (Null, Dead)
      else if s.Tok().Op? then
        var (right, s2) := Expression(s1, Lbp(s.Tok()));
        if s2.Dead? then (Null, Dead)
        else if right == Null then InfixLoop(Null, s2.Fail(), rbp)
        else InfixLoop(Bin(s.Tok().op, left, right), s2, rbp)
      else
        var (node, s2) := CallInfix(left, s1);
        InfixLoop(node, s2, rbp)
    else (left, s)
  }

  function ParenPrefix(s: PState): (r: (Node, PState))
    ensures Forward(s, r.1)
    decreases s.Size(), 3
  {
    var (node, s1) := Expression(s, 0);
    (node, s1.Expect(RParen))
  }

  /** A call. Only a variable can be called: on any other callee the name is read from the wrong node. */
  function CallInfix(left: Node, s: PState): (r: (Node, PState))
    ensures Forward(s, r.1)
    decreases s.Size(), 3
  {
    var (args, s1) := ArgsLoop([], s);
    if s1.Dead? then (Null, Dead)
    else if args.None? then (Null, s1.Fail())
    else
      var s2 := s1.Expect(RParen);
      if s2.Dead? || !left.Var? then (Null, Dead) else (Call(left.name, args.value), s2)
  }

  /**
   * The arguments up to the closing parenthesis, unless one could not be parsed; commas may be left
   * out. The array for them has 16 places, and nothing stops a seventeenth.
   */
  function ArgsLoop(args: seq<Node>, s: PState): (r: (Option<seq<Node>>, PState))
    ensures Forward(s, r.1)
    decreases s.Size(), 2
  {
    if s.Dead? then (None, Dead)
    else if s.Is(RParen) then (Some(args), s)
    else
      var (arg, s1) := Expression(s, 0);
      if s1.Dead? then (None, Dead)
      else if arg == Null then (None, s1)
      else if |args| >= MAX_FUNC_PARAMS then (None, Dead)
      else ArgsLoop(args + [arg], s1.Skip(Comma))
  }

  function IfPrefix(s: PState): (r: (Node, PState))
    ensures Forward(s, r.1)
    decreases s.Size(), 4
  {
    var (cond, s1) := Expression(s.Expect(LParen), 0);
    var (thenBlock, s2) := BlockBody(s1.Expect(RParen).Expect(LCurl));
    var s3 := s2.Expect(RCurl);
    if s3.Dead? then (Null, Dead)
    else if s3.Is(ElseKw) then ElsePart(cond, thenBlock, s3.Scan())
    else (If(cond, thenBlock, Null), s3)
  }

  /** `block` is called twice here: its first result is kept, its second only tested. */
  function ElsePart(cond: Node, thenBlock: Node, s: PState): (r: (Node, PState))
    ensures Forward(s, r.1)
    decreases s.Size(), 4
  {
    var (elseBlock, s1) := BlockBody(s.Expect(LCurl));
    var (again, s2) := BlockBody(s1);
    if s2.Dead? then (Null, Dead)
    else if again == Null then (Null, s2.Fail())
    else
      var s3 := s2.Expect(RCurl);
      if s3.Dead? then (Null, Dead) else (If(cond, thenBlock, elseBlock), s3)
  }

  function DefPrefix(s: PState): (r: (Node, PState))
    ensures Forward(s, r.1)
    decreases s.Size(), 4
  {
    var name := if s.Tok().Id? then s.Tok().name else "";
    if !s.Tok().Id? then (Null, Dead)
    else
      var s1 := s.Scan().Expect(LParen);
      if s1.Dead? then (Null, Dead)
      else
        var (params, s2) := ParamsLoop([], s1);
        if s2.Dead? then (Null, Dead)
        else if params.None? || |params.value| == MAX_FUNC_PARAMS then (Null, s2.Fail())
        else
          var (body, s3) := BlockBody(s2.Expect(RParen).Expect(LCurl));
          var s4 := s3.Expect(RCurl);
          if s4.Dead? then (Null, Dead) else (FuncDef(Proto(name, params.value), body), s4)
  }

  /** The parameter names up to the closing parenthesis, unless something else stands there. */
  function ParamsLoop(params: seq<string>, s: PState): (r: (Option<seq<string>>, PState))
    ensures Forward(s, r.1)
    decreases s.Size()
  {
    if s.Dead? then (None, Dead)
    else if s.Is(RParen) then (Some(params), s)
    else if !s.Tok().Id? then (None, s)
    else if |params| >= MAX_FUNC_PARAMS then (None, Dead)
    else ParamsLoop(params + [s.Tok().name], s.Scan().Skip(Comma))
  }

  /** The statements up to the end of the source or a closing brace; NULL when one could not be parsed. */
  function BlockBody(s: PState): (r: (Node, PState))
    ensures Forward(s, r.1)
    ensures r.1.Live? && r.0 != Null ==> r.0.Block? && (r.1.Is(Eos) || r.1.Is(RCurl))
    decreases s.Size(), 3
  {
    StmtsLoop([], s)
  }

  function StmtsLoop(stmts: seq<Node>, s: PState): (r: (Node, PState))
    ensures Forward(s, r.1)
    ensures r.1.Live? && r.0 != Null ==> r.0.Block? && (r.1.Is(Eos) || r.1.Is(RCurl))
    decreases s.Size(), 2
  {
    if s.Dead? then (Null, Dead)
    else if s.Is(Eos) || s.Is(RCurl) then (Block(stmts), s)
    else
      var (node, s1) := Expression(s, 0);
      var s2 := s1.Expect(Semi);
      if s2.Dead? then (Null, Dead)
      else if node == Null then (Null, s2)
      else StmtsLoop(stmts + [node], s2)
  }

  /** The state once the first token has been loaded. */
  function Start(toks: seq<Token>): PState {
    if |toks| > 0 && toks[0] == Bad then Dead else Live(toks, false)
  }

  /** A whole source. A NULL root ends the program, like any other failure. */
  function Program(toks: seq<Token>): (r: (Node, PState)) {
    var (root, s) := BlockBody(Start(toks));
    if s.Dead? || root == Null then (Null, Dead) else (root, s)
  }
}
