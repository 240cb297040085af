/** The syntax trees that the parser builds and the code generator walks (src/ast.h). */
module Ast {

  datatype BinOp = Add | Sub | Mul | Div | CmpLt

  datatype Proto = Proto(name: string, params: seq<string>)

  /**
   * A tree node. `Null` stands for a NULL node pointer: the missing `else` of an
   * `if`, or a sub-tree that the parser failed to build and stored all the same.
   * Number literals are digit strings, so their value is an exact natural number.
   */
  datatype Node =
    | Null
    | Dbl(val: nat)
    | Var(name: string)
    | Bin(op: BinOp, left: Node, right: Node)
    | Call(callee: string, args: seq<Node>)
    | If(cond: Node, thenBlock: Node, elseBlock: Node)
    | Block(stmts: seq<Node>)
    | FuncDef(proto: Proto, body: Node)

  /**
   * The function bodies the code generator can compile: blocks are non-empty, each `if` has an
   * `else`, and no function is defined inside another.
   */
  predicate Compilable(n: Node) {
    match n
    case Null => false
    case Dbl(_) => true
    case Var(_) => true
    case Bin(_, left, right) => Compilable(left) && Compilable(right)
    case Call(_, args) => forall i | 0 <= i < |args| :: Compilable(args[i])
    case If(cond, thenBlock, elseBlock) =>
      Compilable(cond) && Compilable(thenBlock) && Compilable(elseBlock)
    case Block(stmts) => |stmts| > 0 && forall i | 0 <= i < |stmts| :: Compilable(stmts[i])
    case FuncDef(_, _) => false
  }

  /** A function definition that stands at the top level of a program. */
  datatype Def = Def(proto: Proto, body: Node)

  predicate CompilableProgram(defs: seq<Def>) {
    |defs| > 0 && forall i | 0 <= i < |defs| :: Compilable(defs[i].body)
  }
}
