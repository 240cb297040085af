/** From trees to source text and back, through the lexer and the parser. */
module SourceText {
  import opened Ast
  import opened Decimals
  import opened Lexicon
  import opened LexSpec
  import opened LexRoundTrip
  import opened ParseSpec
  import opened Grammar
  import opened ParseComplete
  import opened ParserCorrect
  import opened Unparse

  /** A token the lexer can produce. */
  predicate Spellable(t: Token) {
    t != Bad && t != Eos && (t.Id? ==> Name(t.name))
  }

  function TextOf(t: Token): string {
    match t
    case Bad => ""
    case Eos => ""
    case Id(name) => name
    case DefKw => "def"
    case IfKw => "if"
    case ElseKw => "else"
    case Num(v) => Decimal(v)
    case Semi => ";"
    case Comma => ","
    case LParen => "("
    case RParen => ")"
    case LCurl => "{"
    case RCurl => "}"
    case Op(Add) => "+"
    case Op(Sub) => "-"
    case Op(Mul) => "*"
    case Op(Div) => "/"
    case Op(CmpLt) => "<"
  }

  lemma TextSpells(t: Token)
    requires Spellable(t)
    ensures Spells(TextOf(t), t)
  {
    if t.Num? {
      assert Decimal(t.val)[..0] == "" && Decimal(t.val)[0..] == Decimal(t.val);
    }
  }

  predicate AllSpellable(toks: seq<Token>) {
    forall i | 0 <= i < |toks| :: Spellable(toks[i])
  }

  /** The tokens with a blank before each. */
  function Items(toks: seq<Token>): seq<Item> {
    seq(|toks|, i requires 0 <= i < |toks| => Item(" ", TextOf(toks[i]), toks[i]))
  }

  lemma ItemsWritten(toks: seq<Token>)
    requires AllSpellable(toks)
    ensures Written(Items(toks)) && ToksOf(Items(toks)) == toks
  {
    hide Spells, Spellable, TextOf, Merge;
    var items := Items(toks);
    forall i | 0 <= i < |items| ensures Blank(items[i].sep) && Spells(items[i].text, items[i].tok) {
      TextSpells(toks[i]);
    }
  }

  /** Every name in the tree is one the lexer can produce. */
  predicate Named(n: Node)
    decreases n, 0
  {
    match n
    case Null => true
    case Dbl(_) => true
    case Var(x) => Name(x)
    case Bin(_, left, right) => Named(left) && Named(right)
    case Call(callee, args) => Name(callee) && AllNamed(args)
    case If(cond, thenBlock, elseBlock) => Named(cond) && Named(thenBlock) && Named(elseBlock)
    case Block(stmts) => AllNamed(stmts)
    case FuncDef(proto, body) => Name(proto.name) && AllNames(proto.params) && Named(body)
  }

  predicate AllNamed(ns: seq<Node>)
    decreases ns, 0
  {
    |ns| > 0 ==> Named(ns[0]) && AllNamed(ns[1..])
  }

  predicate AllNames(names: seq<string>) {
    |names| > 0 ==> Name(names[0]) && AllNames(names[1..])
  }

  lemma {:induction false} PrintSpellable(n: Node, k: seq<Token>)
    requires Expr(n) && Named(n) && AllSpellable(k)
    ensures AllSpellable(Yield(Print(n), k))
    decreases n, 1
  {
    hide Spellable, Name, YieldArgs, YieldStmts, YieldParams;
    SpellablePuncts();
    match n
    case Bin(op, l, r) =>
      OperandSpellable(r, OpLbp(op) + 1, k);
      OperandSpellable(l, OpLbp(op), [Op(op)] + Yield(Operand(r, OpLbp(op) + 1), k));
    case Call(callee, args) =>
      PrintAllLayered(args);
      ArgsSpellable(args, Commas(|args|), [RParen] + k);
      SpellableId(callee);
      var k1 := [LParen] + YieldArgs(PrintAll(args), Commas(|args|), [RParen] + k);
      assert Yield(Print(n), k) == [Id(callee)] + k1;
    case If(_, _, _) => IfSpellable(n, k);
    case FuncDef(proto, body) =>
      StmtsSpellable(body.stmts, [RCurl] + k);
      ParamsSpellable(proto.params, Commas(|proto.params|), [RParen] + ([LCurl] + YieldStmts(PrintAll(body.stmts), [RCurl] + k)));
      SpellableId(proto.name);
    case Var(x) => SpellableId(x);
    case Dbl(v) => SpellableNum(v);
  }

  lemma {:induction false} IfSpellable(n: Node, k: seq<Token>)
    requires n.If? && Expr(n) && Named(n) && AllSpellable(k)
    ensures AllSpellable(Yield(Print(n), k))
    decreases n, 0
  {
    hide Spellable, YieldStmts, Print, PrintAll;
    SpellablePuncts();
    var c := Print(n);
    IfPrinted(n);
    var rest := IfRest(c, k);
    if c.hasElse {
      StmtsSpellable(n.elseBlock.stmts, [RCurl] + k);
      assert YieldStmts(c.again, [RCurl] + k) == [RCurl] + k by { NoStmts([RCurl] + k); }
    }
    StmtsSpellable(n.thenBlock.stmts, [RCurl] + rest);
    PrintSpellable(n.cond, [RParen] + IfYield(c, k));
    IfShape(c, k);
    hide Yield;
  }

  lemma IfPrinted(n: Node)
    requires n.If? && Expr(n)
    ensures
      var c := Print(n);
      && c.CIf? && c.cond == Print(n.cond) && c.thenStmts == PrintAll(n.thenBlock.stmts) && c.again == []
      && c.hasElse == n.elseBlock.Block? && (c.hasElse ==> c.elseStmts == PrintAll(n.elseBlock.stmts))
  {}

  lemma SpellableId(x: string)
    requires Name(x)
    ensures Spellable(Id(x))
  {}

  lemma SpellableNum(v: nat)
    ensures Spellable(Num(v))
  {}

  lemma SpellablePuncts()
    ensures forall op :: Spellable(Op(op))
    ensures Spellable(DefKw) && Spellable(IfKw) && Spellable(ElseKw) && Spellable(Semi) && Spellable(Comma)
    ensures Spellable(LParen) && Spellable(RParen) && Spellable(LCurl) && Spellable(RCurl)
  {}

  lemma {:induction false} OperandSpellable(n: Node, level: nat, k: seq<Token>)
    requires Expr(n) && Named(n) && AllSpellable(k)
    ensures AllSpellable(Yield(Operand(n, level), k))
    decreases n, 2
  {
    hide Spellable;
    SpellablePuncts();
    PrintSpellable(n, k);
    PrintSpellable(n, [RParen] + k);
  }

  lemma {:induction false} ArgsSpellable(ns: seq<Node>, commas: seq<bool>, k: seq<Token>)
    requires Exprs(ns) && AllNamed(ns) && AllSpellable(k)
    ensures AllSpellable(YieldArgs(PrintAll(ns), commas, k))
    decreases ns, 0
  {
    hide Spellable;
    SpellablePuncts();
    if |ns| > 0 {
      var tail := if |commas| > 0 then commas[1..] else [];
      ArgsSpellable(ns[1..], tail, k);
      assert PrintAll(ns)[1..] == PrintAll(ns[1..]);
      var rest := YieldArgs(PrintAll(ns[1..]), tail, k);
      PrintSpellable(ns[0], rest);
      PrintSpellable(ns[0], [Comma] + rest);
    }
  }

  lemma {:induction false} StmtsSpellable(ns: seq<Node>, k: seq<Token>)
    requires Exprs(ns) && AllNamed(ns) && AllSpellable(k)
    ensures AllSpellable(YieldStmts(PrintAll(ns), k))
    decreases ns, 0
  {
    hide Spellable;
    SpellablePuncts();
    if |ns| > 0 {
      StmtsSpellable(ns[1..], k);
      assert PrintAll(ns)[1..] == PrintAll(ns[1..]);
      PrintSpellable(ns[0], [Semi] + YieldStmts(PrintAll(ns[1..]), k));
    }
  }

  lemma {:induction false} ParamsSpellable(params: seq<string>, commas: seq<bool>, k: seq<Token>)
    requires AllNames(params) && AllSpellable(k)
    ensures AllSpellable(YieldParams(params, commas, k))
    decreases |params|
  {
    if |params| > 0 {
      ParamsSpellable(params[1..], if |commas| > 0 then commas[1..] else [], k);
    }
  }

  /** The source text of a program: its tokens, with the fewest parentheses, a blank before each. */
  function Source(stmts: seq<Node>): string
    requires Exprs(stmts)
  {
    Render(Items(YieldStmts(PrintAll(stmts), [])))
  }

  /** Any text that spells a program's tokens is parsed to the program's tree, whatever the white space. */
  lemma ParsingText(stmts: seq<Cst>, items: seq<Item>, tail: string)
    requires IsBlock(stmts) && Written(items) && Blank(tail) && ToksOf(items) == YieldStmts(stmts, [])
    ensures Program(Tokens(Render(items) + tail, 0)) == (Block(Trees(stmts)), Live([], false))
  {
    LexingInvertsRendering(items, tail);
    var toks := YieldStmts(stmts, []);
    assert Sentence(stmts, toks, Block(Trees(stmts)), []);
    ProgramIsSentence(toks, Block(Trees(stmts)), []);
  }

  /** Every program has a text, and lexing and parsing that text gives the program back. */
  lemma SourceRoundTrip(stmts: seq<Node>)
    requires Exprs(stmts) && AllNamed(stmts)
    ensures Program(Tokens(Source(stmts), 0)) == (Block(stmts), Live([], false))
  {
    var toks := YieldStmts(PrintAll(stmts), []);
    assert Source(stmts) == Render(Items(toks));
    hide Source, YieldStmts, PrintAll, Exprs, AllNamed, Items, Render, Program, Tokens;
    StmtsSpellable(stmts, []);
    ItemsWritten(toks);
    PrintAllLayered(stmts);
    ParsingText(PrintAll(stmts), Items(toks), "");
    assert Source(stmts) + "" == Source(stmts);
  }
}
