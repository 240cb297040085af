/** A reader of printed trees: the printed form, with every character of it written out. */
module AstReader {
  import opened Ast
  import opened Decimals
  import opened Lexicon
  import opened Wrappers

  /** The text after `p`, when it begins with `p`. */
  function Take(p: string, s: string): (r: Option<string>)
    ensures r.Some? ==> |r.value| + |p| == |s|
  {
    if p <= s then Some(s[|p|..]) else None
  }

  function TakeSpaces(n: nat, s: string): (r: Option<string>)
    ensures r.Some? ==> |r.value| + n == |s|
  {
    if n == 0 then Some(s)
    else
      var t :- Take(" ", s);
      TakeSpaces(n - 1, t)
  }

  /** The longest run of name characters at the front of the text, which must not be empty. */
  function TakeName(s: string): (r: Option<(string, string)>)
    ensures r.Some? ==> |r.value.1| < |s|
  {
    if |s| == 0 || !NameChar(s[0]) then None
    else
      match TakeName(s[1..])
      case None => Some((s[..1], s[1..]))
      case Some((x, t)) => Some((s[..1] + x, t))
  }

  /** The names of a list and its closing bracket. */
  function TakeParams(s: string): (r: Option<(seq<string>, string)>)
    ensures r.Some? ==> |r.value.1| < |s|
    decreases |s|
  {
    if "]" <= s then Some(([], s[1..]))
    else
      var (x, t) :- TakeName(s);
      if "," <= t then
        var (xs, u) :- TakeParams(t[1..]);
        if |xs| == 0 then None else Some(([x] + xs, u))
      else
        var u :- Take("]", t);
        Some(([x], u))
  }

  /** A node in its parentheses, so many spaces in. */
  function TakeTree(s: string, indent: nat): (r: Option<(Node, string)>)
    ensures r.Some? ==> |r.value.1| < |s|
    decreases |s|, 2
  {
    var t :- TakeSpaces(indent, s);
    var u :- Take("(", t);
    var (n, v) :- TakeText(u, indent + 2);
    var w :- Take(")", v);
    Some((n, w))
  }

  /** A node on the next line. */
  function TakeLine(s: string, indent: nat): (r: Option<(Node, string)>)
    ensures r.Some? ==> |r.value.1| < |s|
    decreases |s|, 0
  {
    var t :- Take("\n", s);
    TakeTree(t, indent)
  }

  /** A node on each line, up to the last. */
  function TakeLines(s: string, indent: nat): (r: Option<(seq<Node>, string)>)
    ensures r.Some? ==> |r.value.1| <= |s|
    decreases |s|, 1
  {
    if "\n" <= s then
      var (n, t) :- TakeLine(s, indent);
      var (ns, u) :- TakeLines(t, indent);
      Some(([n] + ns, u))
    else Some(([], s))
  }

  /** What stands between the parentheses; nodes inside stand `indent` spaces in. */
  function TakeText(s: string, indent: nat): (r: Option<(Node, string)>)
    ensures r.Some? ==> |r.value.1| < |s|
    decreases |s|, 1
  {
    if |s| == 0 then None
    else
      match s[0]
      case '+' => TakeOperands(Add, s[1..], indent)
      case '-' => TakeOperands(Sub, s[1..], indent)
      case '*' => TakeOperands(Mul, s[1..], indent)
      case '/' => TakeOperands(Div, s[1..], indent)
      case '<' => TakeOperands(CmpLt, s[1..], indent)
      case 'd' => TakeDbl(s)
      case 'v' => TakeVar(s)
      case 'c' => TakeCall(s, indent)
      case 'i' => TakeIf(s, indent)
      case 'b' => TakeBlock(s, indent)
      case 'f' => TakeFuncDef(s, indent)
      case _ => None
  }

  function TakeOperands(op: BinOp, s: string, indent: nat): (r: Option<(Node, string)>)
    ensures r.Some? ==> |r.value.1| <= |s|
    decreases |s|, 1
  {
    var (left, t) :- TakeLine(s, indent);
    var (right, u) :- TakeLine(t, indent);
    Some((Bin(op, left, right), u))
  }

  function TakeDbl(s: string): (r: Option<(Node, string)>)
    ensures r.Some? ==> |r.value.1| < |s|
  {
    var t :- Take("dbl ", s);
    var (v, u) :- TakeNumber(t);
    var w :- Take(".0", u);
    Some((Dbl(v), w))
  }

  function TakeVar(s: string): (r: Option<(Node, string)>)
    ensures r.Some? ==> |r.value.1| < |s|
  {
    var t :- Take("var ", s);
    var (x, u) :- TakeName(t);
    Some((Var(x), u))
  }

  function TakeCall(s: string, indent: nat): (r: Option<(Node, string)>)
    ensures r.Some? ==> |r.value.1| < |s|
    decreases |s|, 0
  {
    var t :- Take("call ", s);
    var (callee, u) :- TakeName(t);
    var (args, v) :- TakeLines(u, indent);
    Some((Call(callee, args), v))
  }

  function TakeIf(s: string, indent: nat): (r: Option<(Node, string)>)
    ensures r.Some? ==> |r.value.1| < |s|
    decreases |s|, 0
  {
    var t :- Take("if", s);
    var (cond, u) :- TakeLine(t, indent);
    var (thenBlock, v) :- TakeLine(u, indent);
    if " else" <= v then
      var (elseBlock, w) :- TakeLine(v[5..], indent);
      Some((If(cond, thenBlock, elseBlock), w))
    else Some((If(cond, thenBlock, Null), v))
  }

  function TakeBlock(s: string, indent: nat): (r: Option<(Node, string)>)
    ensures r.Some? ==> |r.value.1| < |s|
    decreases |s|, 0
  {
    var t :- Take("block", s);
    var (stmts, u) :- TakeLines(t, indent);
    Some((Block(stmts), u))
  }

  function TakeProto(s: string, indent: nat): (r: Option<(Proto, string)>)
    ensures r.Some? ==> |r.value.1| < |s|
  {
    var t :- TakeSpaces(indent, s);
    var u :- Take("(", t);
    var (name, v) :- TakeName(u);
    var w :- Take("[", v);
    var (params, x) :- TakeParams(w);
    var y :- Take(")", x);
    Some((Proto(name, params), y))
  }

  function TakeFuncDef(s: string, indent: nat): (r: Option<(Node, string)>)
    ensures r.Some? ==> |r.value.1| < |s|
    decreases |s|, 0
  {
    var t :- Take("funcdef\n", s);
    var (proto, u) :- TakeProto(t, indent);
    var (body, v) :- TakeLine(u, indent);
    Some((FuncDef(proto, body), v))
  }
}
