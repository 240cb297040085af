/**
 * The parser of src/parse.c: its functions advance one shared lexer. Each is proved to compute the
 * function of the same name in ParseSpec over the tokens that remain. `alive` is false when the program
 * has ended: `die`, or undefined behaviour.
 */
module Parser {
  import opened Wrappers
  import opened Ast
  import opened LexSpec
  import opened Lexer
  import Spec = ParseSpec
  import opened Vector

  /** In a C string, only its end reads as the end of the source. */
  lemma {:induction false} EosAtEnd(src: string, i: nat)
    requires NoNul(src) && ScanAt(src, i).0 == Eos
    ensures ScanAt(src, i).1 > |src|
    decreases |src| - i
  {
    if IsBlank(CharAt(src, i)) {
      EosAtEnd(src, i + 1);
    }
  }

  class Parser {
    const lex: Lexer
    var err: bool

    constructor (lex: Lexer)
      ensures this.lex == lex && !err
    {
      this.lex := lex;
      err := false;
    }

    ghost predicate Valid()
      reads this, lex
    {
      && NoNul(lex.source) && lex.Valid() && lex.tok != Bad
      && (lex.tok == Eos ==> lex.offset > |lex.source|)
    }

    /** The tokens from the current one on. */
    ghost function Remaining(): (r: seq<Token>)
      reads lex
      ensures if lex.tok == Eos then r == [] else |r| > 0 && r[0] == lex.tok
    {
      if lex.tok == Eos then [] else [lex.tok] + Tokens(lex.source, lex.offset)
    }

    ghost function State(): (s: Spec.PState)
      reads this, lex
      ensures s.Tok() == lex.tok && s.Live? && s.err == err
    {
      Spec.Live(Remaining(), err)
    }

    /** The parser has come to state `s`; when that is `Dead`, the program has ended. */
    ghost predicate Reached(s: Spec.PState, alive: bool)
      reads this, lex
    {
      alive == s.Live? && (alive ==> Valid() && State() == s)
    }

    /** The parser has come to state `r.1` with the result `r.0`. */
    ghost predicate Gives(r: (Node, Spec.PState), alive: bool, node: Node)
      reads this, lex
    {
      Reached(r.1, alive) && (alive ==> node == r.0)
    }

    method Scan() returns (alive: bool)
      requires Valid()
      modifies lex
      ensures Reached(old(State()).Scan(), alive)
    {
      ghost var src, i := lex.source, lex.offset;
      if ScanAt(src, i).0 == Eos {
        EosAtEnd(src, i);
      }
      alive := lex.Scan();
    }

    /** Moves on if the current token is `t`. */
    method Consume(t: Token) returns (alive: bool, taken: bool)
      requires Valid()
      modifies lex
      ensures taken == old(State()).Is(t) && Reached(old(State()).Skip(t), alive)
    {
      taken := lex.Is(t);
      alive := true;
      if taken {
        alive := Scan();
      }
    }

    method Expect(t: Token) returns (alive: bool)
      requires Valid()
      modifies lex
      ensures Reached(old(State()).Expect(t), alive)
    {
      var taken;
      alive, taken := Consume(t);
      alive := alive && taken;
    }

    /** Records an error; the caller's result is NULL. */
    method Fail() returns (node: Node)
      modifies this`err
      ensures node == Null && err && (old(Valid()) ==> Valid() && State() == old(State()).Fail())
    {
      err := true;
      node := Null;
    }

    method Expression(rbp: nat) returns (alive: bool, node: Node)
      requires Valid()
      modifies this`err, lex
      ensures Gives(Spec.Expression(old(State()), rbp), alive, node)
      decreases State().Size(), 6
    {
      hide Remaining;
      var t := lex.tok;
      ghost var goal := Spec.Expression(State(), rbp);
      node := Null;
      alive := Scan();
      if !alive || !Spec.InTable(t) {
        alive := false;
        return;
      }
      if !Spec.HasPrefix(t) {
        node := Fail();
        return;
      }
      alive, node := Prefix(t);
      while alive && Spec.InTable(lex.tok) && rbp < Spec.Lbp(lex.tok)
        invariant alive ==> Valid() && Spec.InfixLoop(node, State(), rbp) == goal
        invariant alive ==> State().Size() < old(State().Size())
        invariant !alive ==> goal.1.Dead?
        decreases alive, if alive then State().Size() else 0
      {
        t := lex.tok;
        alive := Scan();
        if alive && t.Op? {
          alive, node := BinOpInfix(t.op, node);
        } else if alive {
          alive, node := LParenInfix(node);
        }
      }
      alive := alive && Spec.InTable(lex.tok);
    }

    /** The handlers of the prefix column of the table. */
    method Prefix(t: Token) returns (alive: bool, node: Node)
      requires Valid() && Spec.HasPrefix(t)
      modifies this`err, lex
      ensures Gives(Spec.Prefix(t, old(State())), alive, node)
      decreases State().Size(), 10
    {
      alive := true;
      match t
      case Num(v) => node := Dbl(v);
      case Id(name) => node := Var(name);
      case LParen => alive, node := LParenPrefix();
      case IfKw => alive, node := IfPrefix();
      case DefKw => alive, node := FuncDefPrefix();
    }

    method BinOpInfix(op: BinOp, left: Node) returns (alive: bool, node: Node)
      requires Valid()
      modifies this`err, lex
      ensures
        var (right, s) := Spec.Expression(old(State()), Spec.OpLbp(op));
        Gives(if right == Null then (Null, s.Fail()) else (Bin(op, left, right), s), alive, node)
      decreases State().Size(), 7
    {
      var right;
      alive, right := Expression(Spec.OpLbp(op));
      node := Bin(op, left, right);
      if alive && right == Null {
        node := Fail();
      }
    }

    method LParenPrefix() returns (alive: bool, node: Node)
      requires Valid()
      modifies this`err, lex
      ensures Gives(Spec.ParenPrefix(old(State())), alive, node)
      decreases State().Size(), 7
    {
      alive, node := Expression(0);
      if alive {
        alive := Expect(RParen);
      }
    }

    /** A call. Only a variable can be called: the name is read from whatever node stands there. */
    method LParenInfix(left: Node) returns (alive: bool, node: Node)
      requires Valid()
      modifies this`err, lex
      ensures Gives(Spec.CallInfix(left, old(State())), alive, node)
      decreases State().Size(), 7
    {
      hide Remaining, Spec.Expression;
      var args := new Node[Spec.MAX_FUNC_PARAMS];
      var count := 0;
      ghost var goal := Spec.ArgsLoop([], State());
      alive, node := true, Null;
      assert args[..0] == [];
      while !lex.Is(RParen) && count <= Spec.MAX_FUNC_PARAMS
        invariant count <= args.Length && Valid() && State().Size() <= old(State().Size())
        invariant Spec.ArgsLoop(args[..count], State()) == goal
        decreases State().Size()
      {
        var arg;
        alive, arg := Expression(0);
        if !alive {
          return;
        }
        if arg == Null {
          node := Fail();
          return;
        }
        if count == args.Length {
          alive := false;
          return;
        }
        ghost var before := args[..count];
        args[count] := arg;
        count := count + 1;
        assert args[..count] == before + [arg];
        var taken;
        alive, taken := Consume(Comma);
        if !alive {
          return;
        }
      }
      alive := Expect(RParen);
      if alive && left.Var? {
        node := Call(left.name, args[..count]);
      } else {
        alive := false;
      }
    }

    method IfPrefix() returns (alive: bool, node: Node)
      requires Valid()
      modifies this`err, lex
      ensures Gives(Spec.IfPrefix(old(State())), alive, node)
      decreases State().Size(), 9
    {
      hide Remaining, Spec.Expression, Spec.BlockBody;
      var cond, thenBlock;
      node := Null;
      alive := Expect(LParen);
      if alive {
        alive, cond := Expression(0);
      }
      if alive {
        alive := Expect(RParen);
      }
      if alive {
        alive := Expect(LCurl);
      }
      if alive {
        alive, thenBlock := Block();
      }
      if alive {
        alive := Expect(RCurl);
      }
      if alive {
        node := If(cond, thenBlock, Null);
        var taken;
        alive, taken := Consume(ElseKw);
        if alive && taken {
          alive, node := ElseBlock(node);
        }
      }
    }

    /** The `else` part of `node`: `block` is called twice, and only the second result is tested. */
    method ElseBlock(ifNode: Node) returns (alive: bool, node: Node)
      requires Valid() && ifNode.If?
      modifies this`err, lex
      ensures Gives(Spec.ElsePart(ifNode.cond, ifNode.thenBlock, old(State())), alive, node)
      decreases State().Size(), 9
    {
      hide Remaining, Spec.BlockBody;
      var elseBlock, again;
      node := Null;
      alive := Expect(LCurl);
      if alive {
        alive, elseBlock := Block();
      }
      if alive {
        alive, again := Block();
      }
      if alive && again == Null {
        node := Fail();
      } else if alive {
        node := ifNode.(elseBlock := elseBlock);
        alive := Expect(RCurl);
      }
    }

    method FuncDefPrefix() returns (alive: bool, node: Node)
      requires Valid()
      modifies this`err, lex
      ensures Gives(Spec.DefPrefix(old(State())), alive, node)
      decreases State().Size(), 9
    {
      hide Remaining, Spec.BlockBody, Spec.ParamsLoop;
      node := Null;
      if !lex.tok.Id? {
        alive := false;
        return;
      }
      var name := lex.tok.name;
      alive := Scan();
      if alive {
        alive := Expect(LParen);
      }
      var params := None;
      if alive {
        alive, params := ParamList();
      }
      if !alive {
        return;
      }
      if params.None? || |params.value| == Spec.MAX_FUNC_PARAMS {
        node := Fail();
        return;
      }
      alive, node := FuncDefBody(Proto(name, params.value));
    }

    /** The parameter names, in a buffer with 16 places. */
    method ParamList() returns (alive: bool, names: Option<seq<string>>)
      requires Valid()
      modifies this`err, lex
      ensures
        var (all, s) := Spec.ParamsLoop([], old(State()));
        Reached(s, alive) && (alive ==> names == all)
    {
      hide Remaining;
      var params := new string[Spec.MAX_FUNC_PARAMS];
      var count := 0;
      ghost var goal := Spec.ParamsLoop([], State());
      assert params[..0] == [];
      alive, names := true, None;
      while !lex.Is(RParen) && count <= Spec.MAX_FUNC_PARAMS
        invariant count <= params.Length && Valid()
        invariant Spec.ParamsLoop(params[..count], State()) == goal
        decreases State().Size()
      {
        if !lex.tok.Id? {
          return;
        }
        if count == params.Length {
          alive := false;
          return;
        }
        ghost var before := params[..count];
        params[count] := lex.tok.name;
        count := count + 1;
        assert params[..count] == before + [lex.tok.name];
        alive := Scan();
        var taken;
        if alive {
          alive, taken := Consume(Comma);
        }
        if !alive {
          return;
        }
      }
      names := Some(params[..count]);
    }

    /** The rest of a definition, from the end of its parameters. */
    method FuncDefBody(proto: Proto) returns (alive: bool, node: Node)
      requires Valid()
      modifies this`err, lex
      ensures
        var (body, s) := Spec.BlockBody(old(State()).Expect(RParen).Expect(LCurl));
        Gives((FuncDef(proto, body), s.Expect(RCurl)), alive, node)
      decreases State().Size(), 9
    {
      hide Remaining, Spec.BlockBody;
      var body;
      node := Null;
      alive := Expect(RParen);
      if alive {
        alive := Expect(LCurl);
      }
      if alive {
        alive, body := Block();
      }
      if alive {
        node := FuncDef(proto, body);
        alive := Expect(RCurl);
      }
    }

    method ExprStmt() returns (alive: bool, node: Node)
      requires Valid()
      modifies this`err, lex
      ensures
        var (n, s) := Spec.Expression(old(State()), 0);
        Gives((n, s.Expect(Semi)), alive, node)
      decreases State().Size(), 7
    {
      alive, node := Expression(0);
      if alive {
        alive := Expect(Semi);
      }
    }

    /** The statements up to the end of the source or a closing brace, collected in a growing vector. */
    method Block() returns (alive: bool, node: Node)
      requires Valid()
      modifies this`err, lex
      ensures Gives(Spec.BlockBody(old(State())), alive, node)
      decreases State().Size(), 8
    {
      hide Remaining, Spec.Expression;
      var stmts := new Vector<Node>();
      ghost var goal := Spec.BlockBody(State());
      while !lex.Is(Eos) && !lex.Is(RCurl)
        invariant stmts.Valid() && fresh(stmts) && fresh(stmts.a) && Valid() && State().Size() <= old(State().Size())
        invariant Spec.StmtsLoop(stmts.Contents(), State()) == goal
        decreases State().Size()
      {
        alive, node := ExprStmt();
        if !alive || node == Null {
          return;
        }
        stmts.Push(node);
      }
      alive, node := true, Ast.Block(stmts.a[..stmts.n]);
    }

    /** Loads the first token and parses the whole source; a NULL root ends the program. */
    method Parse() returns (alive: bool, root: Node)
      requires NoNul(lex.source) && lex.Valid() && lex.offset == 0 && !err
      modifies this`err, lex
      ensures Gives(Spec.Program(Tokens(lex.source, 0)), alive, root)
    {
      if ScanAt(lex.source, 0).0 == Eos {
        EosAtEnd(lex.source, 0);
      }
      root := Null;
      alive := lex.Scan();
      if alive {
        alive, root := Block();
        alive := alive && root != Null;
      }
    }
  }
}
