/** The abstract syntax the parser hands to the compiler. */
module Ast {

  datatype Const = IntC(i: int) | DoubleC(d: real) | StrC(s: string) | BoolC(b: bool) | NoneC

  datatype BinOpType = Add | Sub | Mult | Div | Mod | Pow | Lt | Gt | LtE | GtE | Eq | NotEq | And | Or

  datatype UnaryOpType = Not | USub | UAdd

  datatype Keyword = Keyword(key: string, arg: Expr)

  datatype Expr =
    | Name(id: string)
    | Constant(c: Const)
    | Attribute(base: Expr, attr: string)
    | Call(func: Expr, args: seq<Expr>, keywords: seq<Keyword>)
    | BinOp(op: BinOpType, left: Expr, right: Expr)
    | Compare(first: Expr, ops: seq<BinOpType>, comparators: seq<Expr>)
    | BoolOp(boolOp: BinOpType, values: seq<Expr>)
    | UnaryOp(unOp: UnaryOpType, operand: Expr)
    | IfExp(test: Expr, body: Expr, orelse: Expr)
    | Subscript(value: Expr, slice: Expr)
    | List(elts: seq<Expr>)
    | Tuple(members: seq<Expr>)
    | Dict(keys: seq<Expr>, vals: seq<Expr>)

  datatype Stmt = Assign(targets: seq<Expr>, rhs: Expr) | ExprStmt(expr: Expr)

  type Module = seq<Stmt>
}
