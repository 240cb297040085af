/** The tree printer of src/ast.c: it writes into a buffer at an offset, and returns the next offset. */
module AstPrinter {
  import opened Ast
  import opened AstReader
  import opened Decimals
  import opened SourceText
  import opened Wrappers
  import opened AstShow

  /** A buffer that held `was` now holds `s` from `i` on, with a NUL after it, and is otherwise as it was. */
  ghost predicate Wrote(now: seq<char>, was: seq<char>, i: nat, s: string) {
    && |now| == |was| && i + |s| < |was|
    && now[..i + |s|] == was[..i] + s && now[i + |s|] == '\0' && now[i + |s| + 1..] == was[i + |s| + 1..]
  }

  /** Of what was written, `t` replaces a tail `x`, which is no longer: the whole is `s + t`. */
  lemma Chain(now: seq<char>, mid: seq<char>, was: seq<char>, i: nat, s: string, x: string, t: string)
    requires Wrote(mid, was, i, s + x) && Wrote(now, mid, i + |s|, t) && |x| <= |t|
    ensures Wrote(now, was, i, s + t)
  {
    var d := |t| - |x|;
    assert mid[i + |s| + |t| + 1..] == mid[i + |s + x| + 1..][d..] == was[i + |s + x| + 1..][d..] == was[i + |s| + |t| + 1..];
    assert mid[..i + |s|] == mid[..i + |s + x|][..i + |s|] == was[..i] + s;
    assert (was[..i] + s) + t == was[..i] + (s + t);
  }

  lemma Append(now: seq<char>, mid: seq<char>, was: seq<char>, i: nat, s: string, t: string)
    requires Wrote(mid, was, i, s) && Wrote(now, mid, i + |s|, t)
    ensures Wrote(now, was, i, s + t)
  {
    assert s + "" == s;
    Chain(now, mid, was, i, s, "", t);
  }

  /** `sprintf` of a string at an offset. */
  method Put(buf: array<char>, i: nat, s: string) returns (e: nat)
    requires i + |s| < buf.Length
    modifies buf
    ensures e == i + |s| && Wrote(buf[..], old(buf[..]), i, s)
  {
    e := i;
    while e < i + |s|
      invariant i <= e <= i + |s| && buf[..e] == old(buf[..i]) + s[..e - i] && buf[e..] == old(buf[e..])
    {
      buf[e] := s[e - i];
      e := e + 1;
    }
    buf[e] := '\0';
    assert s[..e - i] == s;
  }

  /** The names, each with a comma after it. */
  function EachComma(names: seq<string>): string {
    if |names| == 0 then "" else EachComma(names[..|names| - 1]) + (names[|names| - 1] + ",")
  }

  lemma {:induction false} CommaAfterJoin(names: seq<string>)
    ensures |names| > 0 ==> EachComma(names) == Join(names) + ","
    decreases |names|
  {
    if |names| > 1 {
      CommaAfterJoin(names[..|names| - 1]);
      JoinSnoc(names[..|names| - 1], names[|names| - 1]);
      assert names == names[..|names| - 1] + [names[|names| - 1]];
    }
  }

  lemma {:induction false} JoinSnoc(names: seq<string>, x: string)
    requires |names| > 0
    ensures Join(names + [x]) == Join(names) + ("," + x)
    decreases |names|
  {
    if |names| > 1 {
      JoinSnoc(names[1..], x);
      assert (names + [x])[1..] == names[1..] + [x];
    } else {
      assert (names + [x])[1..] == [x];
      assert Join([x]) == x;
    }
  }

  lemma {:induction false} CommasShorter(names: seq<string>, j: nat)
    requires j <= |names|
    ensures |EachComma(names[..j])| <= |EachComma(names)|
    decreases |names| - j
  {
    if j < |names| {
      CommasShorter(names, j + 1);
      assert names[..j + 1][..j] == names[..j];
    } else {
      assert names[..j] == names;
    }
  }

  /** The loop over the parameters: each is written with a comma. */
  method ReadParams(buf: array<char>, i: nat, names: seq<string>) returns (e: nat)
    requires |names| > 0 && i + |EachComma(names)| < buf.Length
    modifies buf
    ensures e == i + |EachComma(names)| && Wrote(buf[..], old(buf[..]), i, EachComma(names))
  {
    hide Wrote;
    ghost var was := buf[..];
    var j := 0;
    e := i;
    while j < |names|
      invariant j <= |names| && e == i + |EachComma(names[..j])|
      invariant if j == 0 then buf[..] == was else Wrote(buf[..], was, i, EachComma(names[..j]))
    {
      CommasShorter(names, j + 1);
      assert names[..j + 1][..j] == names[..j];
      ghost var mid := buf[..];
      e := Put(buf, e, names[j] + ",");
      if j > 0 {
        Append(buf[..], mid, was, i, EachComma(names[..j]), names[j] + ",");
      } else {
        assert EachComma(names[..1]) == "" + (names[0] + ",") == names[0] + ",";
      }
      j := j + 1;
    }
    assert names[..j] == names;
  }

  /** Writes a prototype. The comma after the last parameter is written, and then overwritten. */
  method ReadProto(buf: array<char>, i: nat, indent: nat, proto: Proto) returns (e: nat)
    requires i + |ShowProto(proto, indent)| < buf.Length
    modifies buf
    ensures e == i + |ShowProto(proto, indent)| && Wrote(buf[..], old(buf[..]), i, ShowProto(proto, indent))
  {
    hide Wrote, EachComma, Join;
    ghost var was := buf[..];
    ghost var s, all := Spaces(indent) + ("(" + (proto.name + "[")), Join(proto.params);
    assert s + all + "])" == ShowProto(proto, indent);
    e := Put(buf, i, Spaces(indent) + ("(" + (proto.name + "[")));
    ghost var mid := buf[..];
    if |proto.params| > 0 {
      CommaAfterJoin(proto.params);
      e := ReadParams(buf, e, proto.params);
      Append(buf[..], mid, was, i, s, all + ",");
      assert s + (all + ",") == s + all + ",";
      e := e - 1;
      mid := buf[..];
      e := Put(buf, e, "])");
      Chain(buf[..], mid, was, i, s + all, ",", "])");
    } else {
      assert all == "" by { JoinNone(proto.params); }
      assert s + all == s;
      e := Put(buf, e, "])");
      Append(buf[..], mid, was, i, s, "])");
    }
  }

  lemma JoinNone(names: seq<string>)
    requires |names| == 0
    ensures Join(names) == ""
  {}

  /** What was written reads back as the tree. */
  lemma WroteTree(now: seq<char>, was: seq<char>, i: nat, indent: nat, node: Node)
    requires Whole(node) && Wrote(now, was, i, Show(node, indent))
    ensures Named(node) ==> TakeTree(now[i..i + |Show(node, indent)|], indent) == Some((node, ""))
  {
    var s := Show(node, indent);
    hide Show, Whole, Named, TakeTree;
    assert now[i..i + |s|] == now[..i + |s|][i..] == s == s + "";
    if Named(node) {
      TreeBack(node, indent, "");
    }
  }

  /** Writes a node; returns the offset of the end. */
  method ReadF(buf: array<char>, i: nat, indent: nat, node: Node) returns (e: nat)
    requires Whole(node) && i + |Show(node, indent)| < buf.Length
    modifies buf
    ensures e == i + |Show(node, indent)| && Wrote(buf[..], old(buf[..]), i, Show(node, indent))
    ensures Named(node) ==> TakeTree(buf[i..e], indent) == Some((node, ""))
    decreases node, 3
  {
    hide Wrote, Text, Whole, Named, TakeTree;
    ghost var was := buf[..];
    e := Put(buf, i, Spaces(indent) + "(");
    ghost var mid := buf[..];
    e := ReadText(buf, e, indent, node);
    Append(buf[..], mid, was, i, Spaces(indent) + "(", Text(node, indent));
    mid := buf[..];
    e := Put(buf, e, ")");
    Append(buf[..], mid, was, i, Spaces(indent) + "(" + Text(node, indent), ")");
    assert Spaces(indent) + "(" + Text(node, indent) + ")" == Show(node, indent);
    WroteTree(buf[..], was, i, indent, node);
  }

  /** A line break, and a node on its line. */
  method ReadLine(buf: array<char>, i: nat, indent: nat, node: Node) returns (e: nat)
    requires Whole(node) && i + |Line(node, indent)| < buf.Length
    modifies buf
    ensures e == i + |Line(node, indent)| && Wrote(buf[..], old(buf[..]), i, Line(node, indent))
    decreases node, 4
  {
    hide Wrote, Show;
    ghost var was := buf[..];
    e := Put(buf, i, "\n");
    ghost var mid := buf[..];
    e := ReadF(buf, e, indent, node);
    Append(buf[..], mid, was, i, "\n", Show(node, indent));
  }

  lemma LinesNext(done: string, nodes: seq<Node>, j: nat, indent: nat)
    requires j < |nodes| && AllWhole(nodes[j..])
    ensures Whole(nodes[j]) && AllWhole(nodes[j + 1..])
    ensures done + Lines(nodes[j..], indent) == (done + Line(nodes[j], indent)) + Lines(nodes[j + 1..], indent)
  {
    assert nodes[j..][1..] == nodes[j + 1..] && nodes[j..][0] == nodes[j];
    hide Line;
    Assoc(done, Line(nodes[j], indent), Lines(nodes[j + 1..], indent));
  }

  method ReadLines(buf: array<char>, i: nat, indent: nat, nodes: seq<Node>) returns (e: nat)
    requires AllWhole(nodes) && i + |Lines(nodes, indent)| < buf.Length
    modifies buf
    ensures e == i + |Lines(nodes, indent)| && (|nodes| > 0 ==> Wrote(buf[..], old(buf[..]), i, Lines(nodes, indent)))
    ensures |nodes| == 0 ==> buf[..] == old(buf[..])
    decreases nodes, 0
  {
    hide Wrote, Line;
    ghost var was := buf[..];
    ghost var done := "";
    var j := 0;
    e := i;
    while j < |nodes|
      invariant j <= |nodes| && AllWhole(nodes[j..]) && e == i + |done|
      invariant done + Lines(nodes[j..], indent) == Lines(nodes, indent)
      invariant if j == 0 then buf[..] == was && done == "" else Wrote(buf[..], was, i, done)
    {
      ghost var mid := buf[..];
      LinesNext(done, nodes, j, indent);
      ghost var line := Line(nodes[j], indent);
      e := ReadLine(buf, e, indent, nodes[j]);
      if j > 0 {
        Append(buf[..], mid, was, i, done, line);
      } else {
        assert done + line == line;
      }
      done := done + line;
      j := j + 1;
    }
    assert done + "" == done;
  }

  /** The part between the parentheses, by the kind of the node. */
  method ReadText(buf: array<char>, i: nat, indent: nat, node: Node) returns (e: nat)
    requires Whole(node) && i + |Text(node, indent)| < buf.Length
    modifies buf
    ensures e == i + |Text(node, indent)| && Wrote(buf[..], old(buf[..]), i, Text(node, indent))
    decreases node, 2
  {
    hide Wrote, Line, Lines, ShowProto;
    match node
    case Dbl(v) => e := Put(buf, i, "dbl " + (Decimal(v) + ".0"));
    case Var(x) => e := Put(buf, i, "var " + x);
    case Bin(op, left, right) => e := ReadBin(buf, i, indent, node);
    case Call(callee, args) => e := ReadTagged(buf, i, "call " + callee, indent + 2, args);
      assert "call " + (callee + Lines(args, indent + 2)) == ("call " + callee) + Lines(args, indent + 2);
    case If(cond, thenBlock, elseBlock) => e := ReadIf(buf, i, indent, node);
    case Block(stmts) => e := ReadTagged(buf, i, "block", indent + 2, stmts);
    case FuncDef(proto, body) => e := ReadDef(buf, i, indent, node);
  }

  /** A heading, and nodes on the lines after it. */
  method ReadTagged(buf: array<char>, i: nat, tag: string, indent: nat, nodes: seq<Node>) returns (e: nat)
    requires AllWhole(nodes) && i + |tag + Lines(nodes, indent)| < buf.Length
    modifies buf
    ensures e == i + |tag + Lines(nodes, indent)| && Wrote(buf[..], old(buf[..]), i, tag + Lines(nodes, indent))
    decreases nodes, 1
  {
    hide Wrote, Line;
    ghost var was := buf[..];
    e := Put(buf, i, tag);
    ghost var mid := buf[..];
    e := ReadLines(buf, e, indent, nodes);
    if |nodes| > 0 {
      Append(buf[..], mid, was, i, tag, Lines(nodes, indent));
    } else {
      assert tag + "" == tag;
    }
  }

  method ReadBin(buf: array<char>, i: nat, indent: nat, node: Node) returns (e: nat)
    requires node.Bin? && Whole(node) && i + |Text(node, indent)| < buf.Length
    modifies buf
    ensures e == i + |Text(node, indent)| && Wrote(buf[..], old(buf[..]), i, Text(node, indent))
    decreases node, 1
  {
    hide Wrote, Line;
    ghost var was, l, r := buf[..], Line(node.left, indent + 2), Line(node.right, indent + 2);
    ghost var tag := [OpChar(node.op)];
    assert Text(node, indent) == tag + (l + r) == tag + l + r;
    e := Put(buf, i, [OpChar(node.op)]);
    ghost var mid := buf[..];
    e := ReadLine(buf, e, indent + 2, node.left);
    Append(buf[..], mid, was, i, tag, l);
    mid := buf[..];
    e := ReadLine(buf, e, indent + 2, node.right);
    Append(buf[..], mid, was, i, tag + l, r);
  }

  lemma IfText(n: Node, indent: nat)
    requires n.If? && Whole(n)
    ensures Text(n, indent) == "if" + Line(n.cond, indent + 2) + Line(n.thenBlock, indent + 2) + ElseText(n, indent)
  {
    hide Line;
    var c, t, e := Line(n.cond, indent + 2), Line(n.thenBlock, indent + 2), ElseText(n, indent);
    assert Text(n, indent) == "if" + (c + (t + e));
    hide Text, ElseText;
    assert "if" + (c + (t + e)) == "if" + c + t + e;
  }

  method ReadIf(buf: array<char>, i: nat, indent: nat, node: Node) returns (e: nat)
    requires node.If? && Whole(node) && i + |Text(node, indent)| < buf.Length
    modifies buf
    ensures e == i + |Text(node, indent)| && Wrote(buf[..], old(buf[..]), i, Text(node, indent))
    decreases node, 1
  {
    hide Wrote, Line;
    ghost var was, c, t := buf[..], Line(node.cond, indent + 2), Line(node.thenBlock, indent + 2);
    IfText(node, indent);
    hide Text;
    e := Put(buf, i, "if");
    ghost var mid := buf[..];
    e := ReadLine(buf, e, indent + 2, node.cond);
    Append(buf[..], mid, was, i, "if", c);
    mid := buf[..];
    e := ReadLine(buf, e, indent + 2, node.thenBlock);
    Append(buf[..], mid, was, i, "if" + c, t);
    if node.elseBlock != Null {
      mid := buf[..];
      e := ReadElse(buf, e, indent + 2, node.elseBlock);
      Append(buf[..], mid, was, i, "if" + c + t, ElseText(node, indent));
    } else {
      assert "if" + c + t + "" == "if" + c + t;
    }
  }

  method ReadElse(buf: array<char>, i: nat, indent: nat, node: Node) returns (e: nat)
    requires Whole(node) && i + |" else" + Line(node, indent)| < buf.Length
    modifies buf
    ensures e == i + |" else" + Line(node, indent)| && Wrote(buf[..], old(buf[..]), i, " else" + Line(node, indent))
    decreases node, 5
  {
    hide Wrote, Line;
    ghost var was := buf[..];
    e := Put(buf, i, " else");
    ghost var mid := buf[..];
    e := ReadLine(buf, e, indent, node);
    Append(buf[..], mid, was, i, " else", Line(node, indent));
  }

  method ReadDef(buf: array<char>, i: nat, indent: nat, node: Node) returns (e: nat)
    requires node.FuncDef? && Whole(node) && i + |Text(node, indent)| < buf.Length
    modifies buf
    ensures e == i + |Text(node, indent)| && Wrote(buf[..], old(buf[..]), i, Text(node, indent))
    decreases node, 1
  {
    hide Wrote, Line, ShowProto;
    ghost var was, p, b := buf[..], ShowProto(node.proto, indent + 2), Line(node.body, indent + 2);
    assert Text(node, indent) == "funcdef" + (("\n" + p) + b) == "funcdef" + "\n" + p + b;
    e := Put(buf, i, "funcdef" + "\n");
    ghost var mid := buf[..];
    e := ReadProto(buf, e, indent + 2, node.proto);
    Append(buf[..], mid, was, i, "funcdef" + "\n", p);
    mid := buf[..];
    e := ReadLine(buf, e, indent + 2, node.body);
    Append(buf[..], mid, was, i, "funcdef" + "\n" + p, b);
  }
}
