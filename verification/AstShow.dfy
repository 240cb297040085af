/** The printed form of a syntax tree, as a function of the tree, and how it is read back (src/ast.c). */
module AstShow {
  import opened Ast
  import opened AstReader
  import opened Decimals
  import opened Lexicon
  import opened SourceText
  import opened Wrappers

  /** No pointer but that of a missing `else` is NULL: the printer would read through it. */
  predicate Whole(n: Node)
    decreases n, 0
  {
    match n
    case Null => false
    case Dbl(_) => true
    case Var(_) => true
    case Bin(_, left, right) => Whole(left) && Whole(right)
    case Call(_, args) => AllWhole(args)
    case If(cond, thenBlock, elseBlock) => Whole(cond) && Whole(thenBlock) && (elseBlock == Null || Whole(elseBlock))
    case Block(stmts) => AllWhole(stmts)
    case FuncDef(_, body) => Whole(body)
  }

  predicate AllWhole(ns: seq<Node>)
    decreases ns, 0
  {
    |ns| > 0 ==> Whole(ns[0]) && AllWhole(ns[1..])
  }

  function Spaces(n: nat): (s: string)
    ensures |s| == n
  {
    seq(n, _ => ' ')
  }

  function OpChar(op: BinOp): char {
    match op
    case Add => '+'
    case Sub => '-'
    case Mul => '*'
    case Div => '/'
    case CmpLt => '<'
  }

  /** The names with commas between them. */
  function Join(names: seq<string>): string
    decreases |names|, 1
  {
    if |names| == 0 then "" else names[0] + AfterName(names)
  }

  /** The list after its first name. */
  function AfterName(names: seq<string>): string
    requires |names| > 0
    decreases |names|, 0
  {
    if |names| == 1 then "" else "," + Join(names[1..])
  }

  function ShowProto(proto: Proto, indent: nat): string {
    Spaces(indent) + ("(" + (proto.name + ("[" + (Join(proto.params) + "])"))))
  }

  function Show(n: Node, indent: nat): (s: string)
    requires Whole(n)
    decreases n, 1
  {
    Spaces(indent) + ("(" + (Text(n, indent) + ")"))
  }

  /** What stands between the parentheses. */
  function Text(n: Node, indent: nat): string
    requires Whole(n)
    decreases n, 0
  {
    match n
    case Dbl(v) => "dbl " + (Decimal(v) + ".0")
    case Var(x) => "var " + x
    case Bin(op, left, right) => [OpChar(op)] + (Line(left, indent + 2) + Line(right, indent + 2))
    case Call(callee, args) => "call " + (callee + Lines(args, indent + 2))
    case If(cond, thenBlock, elseBlock) =>
      "if" + (Line(cond, indent + 2) + (Line(thenBlock, indent + 2) +
        if elseBlock == Null then "" else " else" + Line(elseBlock, indent + 2)))
    case Block(stmts) => "block" + Lines(stmts, indent + 2)
    case FuncDef(proto, body) => "funcdef" + (("\n" + ShowProto(proto, indent + 2)) + Line(body, indent + 2))
  }

  function Line(n: Node, indent: nat): string
    requires Whole(n)
    decreases n, 2
  {
    "\n" + Show(n, indent)
  }

  function Lines(ns: seq<Node>, indent: nat): string
    requires AllWhole(ns)
    decreases ns, 0
  {
    if |ns| == 0 then "" else Line(ns[0], indent) + Lines(ns[1..], indent)
  }

  // ---------- Reading a printed tree gives the tree back ----------

  lemma Assoc(a: string, b: string, c: string)
    ensures (a + b) + c == a + (b + c)
  {}

  lemma Taken(p: string, k: string)
    ensures Take(p, p + k) == Some(k)
  {}

  lemma {:induction false} SpacesTaken(n: nat, k: string)
    ensures TakeSpaces(n, Spaces(n) + k) == Some(k)
  {
    if n > 0 {
      assert Spaces(n) + k == " " + (Spaces(n - 1) + k);
      Taken(" ", Spaces(n - 1) + k);
      SpacesTaken(n - 1, k);
    } else {
      assert Spaces(n) + k == k;
    }
  }

  /** No name goes on here. */
  predicate Delimited(k: string) {
    |k| > 0 && !NameChar(k[0])
  }

  lemma NameTaken(x: string, k: string)
    requires Name(x) && Delimited(k)
    ensures TakeName(x + k) == Some((x, k))
  {
    RunTaken(x, k);
  }

  lemma {:induction false} RunTaken(x: string, k: string)
    requires |x| > 0 && (forall i | 0 <= i < |x| :: NameChar(x[i])) && Delimited(k)
    ensures TakeName(x + k) == Some((x, k))
    decreases |x|
  {
    assert (x + k)[1..] == x[1..] + k && (x + k)[..1] == x[..1];
    if |x| > 1 {
      RunTaken(x[1..], k);
      assert x[..1] + x[1..] == x;
    } else {
      assert x[1..] + k == k && x[..1] == x;
    }
  }

  lemma JoinSplit(names: seq<string>, k: string)
    requires |names| > 0 && Delimited(k)
    ensures Join(names) + k == names[0] + (AfterName(names) + k) && Delimited(AfterName(names) + k)
  {
    JoinFirst(names);
    AfterView(names, k);
    hide Join, AfterName;
    Assoc(names[0], AfterName(names), k);
  }

  lemma JoinFirst(names: seq<string>)
    requires |names| > 0
    ensures Join(names) == names[0] + AfterName(names)
  {}

  lemma AfterView(names: seq<string>, k: string)
    requires |names| > 0
    ensures |names| == 1 ==> AfterName(names) + k == k
    ensures |names| > 1 ==> AfterName(names) + k == "," + (Join(names[1..]) + k)
    ensures |names| > 1 ==> (AfterName(names) + k)[0] == ','
  {
    hide Join;
  }

  lemma {:induction false} ParamsTaken(names: seq<string>, k: string)
    requires AllNames(names)
    ensures TakeParams(Join(names) + ("]" + k)) == Some((names, k))
    decreases |names|
  {
    hide Join, AfterName, Name;
    if |names| == 0 {
      NoneJoined(names, "]" + k);
    } else {
      JoinSplit(names, "]" + k);
      AfterView(names, "]" + k);
      NameTaken(names[0], AfterName(names) + ("]" + k));
      NameFirst(names[0], AfterName(names) + ("]" + k));
      if |names| > 1 {
        ParamsTaken(names[1..], k);
        assert names == [names[0]] + names[1..];
      } else {
        assert names == [names[0]];
      }
    }
  }

  lemma NoneJoined(names: seq<string>, k: string)
    requires |names| == 0
    ensures Join(names) + k == k
  {}

  lemma NameFirst(x: string, k: string)
    requires Name(x)
    ensures |x + k| > 0 && NameChar((x + k)[0])
  {}

  lemma ProtoSplit(p: Proto, indent: nat, k: string)
    ensures ShowProto(p, indent) + k == Spaces(indent) + ("(" + (p.name + ("[" + (Join(p.params) + ("]" + (")" + k))))))
  {
    hide Join;
    var j := Join(p.params);
    assert ShowProto(p, indent) == Spaces(indent) + ("(" + (p.name + ("[" + (j + "])"))));
    hide ShowProto;
    assert (Spaces(indent) + ("(" + (p.name + ("[" + (j + "])"))))) + k ==
      Spaces(indent) + ("(" + (p.name + ("[" + (j + ("]" + (")" + k))))));
  }

  lemma ProtoBack(p: Proto, indent: nat, k: string)
    requires Name(p.name) && AllNames(p.params)
    ensures TakeProto(ShowProto(p, indent) + k, indent) == Some((p, k))
  {
    ProtoSplit(p, indent, k);
    var params := Join(p.params) + ("]" + (")" + k));
    SpacesTaken(indent, "(" + (p.name + ("[" + params)));
    Taken("(", p.name + ("[" + params));
    NameTaken(p.name, "[" + params);
    Taken("[", params);
    ParamsTaken(p.params, ")" + k);
    Taken(")", k);
    hide ShowProto, Join, Name, AllNames, TakeSpaces, TakeName, TakeParams, Take;
  }

  /** The text of a node ends here: the closing parenthesis is next. */
  predicate AtClose(k: string) {
    |k| > 0 && k[0] == ')'
  }

  /** A printed tree, whatever comes after it, is read back. */
  lemma {:induction false} TreeBack(n: Node, indent: nat, k: string)
    requires Whole(n) && Named(n)
    ensures TakeTree(Show(n, indent) + k, indent) == Some((n, k))
    decreases n, 2
  {
    hide Text, Show, Whole, Named, TakeSpaces, Take, TakeText;
    ShowSplit(n, indent, k);
    SpacesTaken(indent, "(" + (Text(n, indent) + (")" + k)));
    Taken("(", Text(n, indent) + (")" + k));
    TextBack(n, indent, ")" + k);
    Taken(")", k);
  }

  lemma ShowSplit(n: Node, indent: nat, k: string)
    requires Whole(n)
    ensures Show(n, indent) + k == Spaces(indent) + ("(" + (Text(n, indent) + (")" + k)))
  {
    hide Text, Whole;
    var t := Text(n, indent);
    assert Show(n, indent) == Spaces(indent) + ("(" + (t + ")"));
    hide Show;
    assert (Spaces(indent) + ("(" + (t + ")"))) + k == Spaces(indent) + ("(" + (t + (")" + k)));
  }

  lemma {:induction false} LineBack(n: Node, indent: nat, k: string)
    requires Whole(n) && Named(n)
    ensures TakeLine(Line(n, indent) + k, indent) == Some((n, k))
    decreases n, 3
  {
    hide Show, Whole, Named, TakeTree, Take;
    Assoc("\n", Show(n, indent), k);
    Taken("\n", Show(n, indent) + k);
    TreeBack(n, indent, k);
  }

  lemma {:induction false} LinesBack(ns: seq<Node>, indent: nat, k: string)
    requires AllWhole(ns) && AllNamed(ns) && AtClose(k)
    ensures TakeLines(Lines(ns, indent) + k, indent) == Some((ns, k))
    decreases ns, 0
  {
    hide Line, Lines, Whole, Named, TakeLine;
    LinesSplit(ns, indent, k);
    if |ns| > 0 {
      LineBack(ns[0], indent, Lines(ns[1..], indent) + k);
      LinesBack(ns[1..], indent, k);
      assert ns == [ns[0]] + ns[1..];
    } else {
      assert ns == [];
    }
  }

  lemma LinesSplit(ns: seq<Node>, indent: nat, k: string)
    requires AllWhole(ns) && AtClose(k)
    ensures Delimited(Lines(ns, indent) + k)
    ensures if |ns| == 0 then Lines(ns, indent) + k == k else (Lines(ns, indent) + k)[0] == '\n'
    ensures |ns| > 0 ==> Lines(ns, indent) + k == Line(ns[0], indent) + (Lines(ns[1..], indent) + k)
  {
    hide Show, Whole;
    if |ns| > 0 {
      assert Line(ns[0], indent)[0] == '\n';
      Assoc(Line(ns[0], indent), Lines(ns[1..], indent), k);
    }
  }

  lemma {:induction false} TextBack(n: Node, indent: nat, k: string)
    requires Whole(n) && Named(n) && AtClose(k)
    ensures TakeText(Text(n, indent) + k, indent + 2) == Some((n, k))
    decreases n, 1
  {
    hide Line, Lines, Text, TakeText;
    Dispatch(n, indent, k);
    match n
    case Dbl(v) => DblBack(v, indent, k);
    case Var(x) => VarBack(x, indent, k);
    case Bin(_, _, _) => BinBack(n, indent, k);
    case Call(_, _) => CallBack(n, indent, k);
    case If(_, _, _) => IfBack(n, indent, k);
    case Block(_) => BlockBack(n, indent, k);
    case FuncDef(_, _) => DefBack(n, indent, k);
  }

  /** The first character between the parentheses leads to the reader of this kind of node. */
  lemma Dispatch(n: Node, indent: nat, k: string)
    requires Whole(n)
    ensures
      var s := Text(n, indent) + k;
      |s| > 0 && TakeText(s, indent + 2) ==
        match n
        case Dbl(_) => TakeDbl(s)
        case Var(_) => TakeVar(s)
        case Bin(op, _, _) => TakeOperands(op, s[1..], indent + 2)
        case Call(_, _) => TakeCall(s, indent + 2)
        case If(_, _, _) => TakeIf(s, indent + 2)
        case Block(_) => TakeBlock(s, indent + 2)
        case FuncDef(_, _) => TakeFuncDef(s, indent + 2)
  {
    TextMark(n, indent);
    var s := Text(n, indent) + k;
    assert s[0] == Text(n, indent)[0];
    hide Text, Whole, TakeDbl, TakeVar, TakeOperands, TakeCall, TakeIf, TakeBlock, TakeFuncDef;
  }

  lemma TextMark(n: Node, indent: nat)
    requires Whole(n)
    ensures |Text(n, indent)| > 0
    ensures
      var c := Text(n, indent)[0];
      match n
      case Dbl(_) => c == 'd'
      case Var(_) => c == 'v'
      case Bin(op, _, _) => c == OpChar(op)
      case Call(_, _) => c == 'c'
      case If(_, _, _) => c == 'i'
      case Block(_) => c == 'b'
      case FuncDef(_, _) => c == 'f'
  {
    hide Line, Lines, ShowProto, Decimal, Whole;
  }

  lemma DblBack(v: nat, indent: nat, k: string)
    ensures TakeDbl(Text(Dbl(v), indent) + k) == Some((Dbl(v), k))
  {
    hide Decimal;
    assert Text(Dbl(v), indent) + k == "dbl " + (Decimal(v) + (".0" + k));
    Taken("dbl ", Decimal(v) + (".0" + k));
    NumberTaken(v, ".0" + k);
    Taken(".0", k);
  }

  lemma VarBack(x: string, indent: nat, k: string)
    requires Name(x) && AtClose(k)
    ensures TakeVar(Text(Var(x), indent) + k) == Some((Var(x), k))
  {
    Assoc("var ", x, k);
    Taken("var ", x + k);
    NameTaken(x, k);
  }

  lemma {:induction false} BinBack(n: Node, indent: nat, k: string)
    requires n.Bin? && Whole(n) && Named(n)
    ensures TakeOperands(n.op, (Text(n, indent) + k)[1..], indent + 2) == Some((n, k))
    decreases n, 0
  {
    hide Line, Text, TakeLine;
    BinSplit(n, indent, k);
    LineBack(n.left, indent + 2, Line(n.right, indent + 2) + k);
    LineBack(n.right, indent + 2, k);
    assert (Text(n, indent) + k)[1..] == Line(n.left, indent + 2) + (Line(n.right, indent + 2) + k);
  }

  lemma {:induction false} CallBack(n: Node, indent: nat, k: string)
    requires n.Call? && Whole(n) && Named(n) && AtClose(k)
    ensures TakeCall(Text(n, indent) + k, indent + 2) == Some((n, k))
    decreases n, 0
  {
    hide Lines, Line, Text, Name, TakeLines;
    CallSplit(n, indent, k);
    var rest := Lines(n.args, indent + 2) + k;
    Taken("call ", n.callee + rest);
    LinesSplit(n.args, indent + 2, k);
    NameTaken(n.callee, rest);
    LinesBack(n.args, indent + 2, k);
  }

  lemma CallSplit(n: Node, indent: nat, k: string)
    requires n.Call? && Whole(n)
    ensures Text(n, indent) + k == "call " + (n.callee + (Lines(n.args, indent + 2) + k))
  {
    hide Lines, Line;
    assert Text(n, indent) == "call " + (n.callee + Lines(n.args, indent + 2));
    hide Text;
  }

  lemma {:induction false} IfBack(n: Node, indent: nat, k: string)
    requires n.If? && Whole(n) && Named(n) && AtClose(k)
    ensures TakeIf(Text(n, indent) + k, indent + 2) == Some((n, k))
    decreases n, 0
  {
    hide Line, Text, ElseText, TakeLine;
    IfSplit(n, indent, k);
    var e := ElseText(n, indent) + k;
    Taken("if", Line(n.cond, indent + 2) + (Line(n.thenBlock, indent + 2) + e));
    LineBack(n.cond, indent + 2, Line(n.thenBlock, indent + 2) + e);
    LineBack(n.thenBlock, indent + 2, e);
    ElseSplit(n, indent, k);
    if n.elseBlock != Null {
      LineBack(n.elseBlock, indent + 2, k);
      assert e[5..] == Line(n.elseBlock, indent + 2) + k;
    }
  }

  lemma {:induction false} BlockBack(n: Node, indent: nat, k: string)
    requires n.Block? && Whole(n) && Named(n) && AtClose(k)
    ensures TakeBlock(Text(n, indent) + k, indent + 2) == Some((n, k))
    decreases n, 0
  {
    hide Lines, Line, Text, TakeLines;
    BlockSplit(n, indent, k);
    Taken("block", Lines(n.stmts, indent + 2) + k);
    LinesBack(n.stmts, indent + 2, k);
  }

  lemma {:induction false} DefBack(n: Node, indent: nat, k: string)
    requires n.FuncDef? && Whole(n) && Named(n)
    ensures TakeFuncDef(Text(n, indent) + k, indent + 2) == Some((n, k))
    decreases n, 0
  {
    hide Line, Text, ShowProto, TakeProto, TakeLine;
    DefSplit(n, indent, k);
    var rest := Line(n.body, indent + 2) + k;
    Taken("funcdef\n", ShowProto(n.proto, indent + 2) + rest);
    ProtoBack(n.proto, indent + 2, rest);
    LineBack(n.body, indent + 2, k);
  }

  lemma BinSplit(n: Node, indent: nat, k: string)
    requires n.Bin? && Whole(n)
    ensures Text(n, indent) + k == [OpChar(n.op)] + (Line(n.left, indent + 2) + (Line(n.right, indent + 2) + k))
  {
    hide Line;
    var a, b := Line(n.left, indent + 2), Line(n.right, indent + 2);
    assert Text(n, indent) == [OpChar(n.op)] + (a + b);
    hide Text;
    Assoc([OpChar(n.op)], a + b, k);
    Assoc(a, b, k);
  }

  lemma BlockSplit(n: Node, indent: nat, k: string)
    requires n.Block? && Whole(n)
    ensures Text(n, indent) + k == "block" + (Lines(n.stmts, indent + 2) + k)
  {
    Assoc("block", Lines(n.stmts, indent + 2), k);
  }

  function ElseText(n: Node, indent: nat): string
    requires n.If? && Whole(n)
  {
    if n.elseBlock == Null then "" else " else" + Line(n.elseBlock, indent + 2)
  }

  lemma IfSplit(n: Node, indent: nat, k: string)
    requires n.If? && Whole(n)
    ensures Text(n, indent) + k == "if" + (Line(n.cond, indent + 2) + (Line(n.thenBlock, indent + 2) + (ElseText(n, indent) + k)))
  {
    hide Line;
    var c, t, e := Line(n.cond, indent + 2), Line(n.thenBlock, indent + 2), ElseText(n, indent);
    assert Text(n, indent) == "if" + (c + (t + e));
    hide Text, ElseText;
    Assoc("if", c + (t + e), k);
    Assoc(c, t + e, k);
    Assoc(t, e, k);
  }

  lemma ElseSplit(n: Node, indent: nat, k: string)
    requires n.If? && Whole(n) && AtClose(k)
    ensures (ElseText(n, indent) + k)[0] == if n.elseBlock == Null then ')' else ' '
    ensures n.elseBlock == Null ==> ElseText(n, indent) + k == k
    ensures n.elseBlock != Null ==> ElseText(n, indent) + k == " else" + (Line(n.elseBlock, indent + 2) + k)
  {
    hide Line;
    if n.elseBlock != Null {
      Assoc(" else", Line(n.elseBlock, indent + 2), k);
    }
  }

  lemma DefSplit(n: Node, indent: nat, k: string)
    requires n.FuncDef? && Whole(n)
    ensures Text(n, indent) + k == "funcdef\n" + (ShowProto(n.proto, indent + 2) + (Line(n.body, indent + 2) + k))
  {
    hide Line, ShowProto;
    var p, b := ShowProto(n.proto, indent + 2), Line(n.body, indent + 2);
    assert Text(n, indent) == "funcdef" + (("\n" + p) + b);
    hide Text;
    assert ("funcdef" + (("\n" + p) + b)) + k == "funcdef\n" + (p + (b + k));
  }

  /** Trees that print to the same bytes at the same indentation are equal. */
  lemma PrintingInjective(n: Node, m: Node, indent: nat)
    requires Whole(n) && Whole(m) && Named(n) && Named(m) && Show(n, indent) == Show(m, indent)
    ensures n == m
  {
    TreeBack(n, indent, "");
    TreeBack(m, indent, "");
  }
}
