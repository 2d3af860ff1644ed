/** The syntax tree the checker walks (`Twice.Compiler.Backend.AST`).

    Every node carries an `id`: the checker's table is keyed by node identity,
    and an id stands for that identity.  The parser allocates a fresh object
    for every node, so in a tree it builds all ids are distinct
    (`UniqueStmt`, `UniqueExpr`).  The shapes of `NegateExpression`,
    `VariableExpression`, `AwaitExpression`, `AwaitStatement` and
    `ChannelLoadExpression` are those their uses in the checker and the parser
    require; their own source files are not part of this model. */
module Ast {
  import opened Outcomes
  import opened SurfaceTypes
  import Escapes

  type NodeId = nat

  datatype BinaryOperation =
    | Addition
    | Subtraction
    | Multiplication
    | Division
    | LogicalAnd
    | LogicalOr
    | LT
    | LTE
    | GT
    | GTE
    | Equality
    | Inequality
    | Remainder
    | ArrayRange

  datatype FunctionArgument = FunctionArgument(id: NodeId, argType: TypeNode, name: string)

  /** `IStatement`.  `LambdaExpression` implements `IStatement`, not
      `IExpression`, so it is a statement here. */
  datatype Stmt =
    | BlockStatement(id: NodeId, statements: seq<Stmt>)
    | DeclarationStatement(id: NodeId, constant: bool, name: string, value: Expr)
    | AssignmentStatement(id: NodeId, name: string, value: Expr)
    | IfStatement(id: NodeId, condition: Expr, thenStatement: Stmt, elseStatement: Option<Stmt>)
    | WhileStatement(id: NodeId, condition: Expr, body: Stmt)
    | ForStatement(id: NodeId, innerVariable: string, parallel: bool, range: Expr, body: Stmt)
    | ReturnStatement(id: NodeId, result: Option<Expr>)
    | ExternFunctionStatement(id: NodeId, vararg: bool, functionName: string, functionType: TypeNode)
    | FunctionDefinitionStatement(id: NodeId, async: bool, functionName: string,
                                  parameters: seq<FunctionArgument>, returnType: TypeNode, inner: Node)
    | FunctionCallStatement(id: NodeId, functionName: string, genericType: Option<TypeNode>, arguments: seq<Expr>)
    | ChannelPushStatement(id: NodeId, channel: Expr, value: Expr)
    | AwaitStatement(id: NodeId, awaited: Expr)
    | LambdaExpression(id: NodeId, async: bool, parameters: seq<FunctionArgument>, returnType: TypeNode, inner: Node)

  /** `IExpression`.  Integer literals are 32-bit in the source; the value of
      a float literal is not modelled, only its type. */
  datatype Expr =
    | IntExpression(id: NodeId, intValue: int)
    | FloatExpression(id: NodeId)
    | BoolExpression(id: NodeId, boolValue: bool)
    | StringExpression(id: NodeId, stringValue: string)
    | VariableExpression(id: NodeId, variable: string)
    | BinOpExpression(id: NodeId, operation: BinaryOperation, left: Expr, right: Expr)
    | NegateExpression(id: NodeId, operand: Expr)
    | ArrayAccessExpression(id: NodeId, arrayValue: Expr, index: Expr)
    | ArrayLiteralExpression(id: NodeId, items: seq<Expr>)
    | FunctionCallExpression(id: NodeId, functionName: string, genericType: Option<TypeNode>, arguments: seq<Expr>)
    | AwaitExpression(id: NodeId, awaited: Expr)
    | BlockExpression(id: NodeId, statements: seq<Stmt>, returnExpression: Expr)
    | ChannelLoadExpression(id: NodeId, channel: Expr)

  /** The nodes `Visit` dispatches on: a function body is a statement or an
      expression, and a function's arguments are visited as nodes too. */
  datatype Node =
    | StmtNode(stmt: Stmt)
    | ExprNode(expr: Expr)
    | ArgNode(arg: FunctionArgument)

  datatype TwiceChunk = TwiceChunk(statements: seq<Stmt>)

  function NodeIdOf(n: Node): NodeId
  {
    match n
    case StmtNode(s) => s.id
    case ExprNode(e) => e.id
    case ArgNode(a) => a.id
  }

  /** The `StringExpression` constructor: the stored value is the decoded
      source text. */
  function MakeStringExpression(id: NodeId, raw: string): (e: Expr)
    ensures e.StringExpression? && e.id == id
    ensures |e.stringValue| == |raw| - Escapes.EscapeCount(raw)
    ensures Escapes.EscapeFree(e.stringValue)
  {
    Escapes.DecodeLength(raw);
    Escapes.DecodeEscapeFree(raw);
    StringExpression(id, Escapes.Decode(raw))
  }

  // ---------------------------------------------------------------------
  // The ids of a subtree, as a multiset: the ids of a tree are distinct when
  // each occurs once.  The list functions run over a prefix, as the checker
  // visits a list from the front.

  ghost function IdsS(s: Stmt): multiset<NodeId>
    decreases s, 1
  {
    multiset{s.id} + ChildIdsS(s)
  }

  /** The ids of the proper subtrees of a statement. */
  ghost function ChildIdsS(s: Stmt): multiset<NodeId>
    decreases s, 0
  {
    match s
    case BlockStatement(_, ss) => IdsSs(ss, |ss|)
    case DeclarationStatement(_, _, _, v) => IdsE(v)
    case AssignmentStatement(_, _, v) => IdsE(v)
    case IfStatement(_, c, t, el) => IdsE(c) + IdsS(t) + (if el.Some? then IdsS(el.value) else multiset{})
    case WhileStatement(_, c, b) => IdsE(c) + IdsS(b)
    case ForStatement(_, _, _, r, b) => IdsE(r) + IdsS(b)
    case ReturnStatement(_, v) => if v.Some? then IdsE(v.value) else multiset{}
    case ExternFunctionStatement(_, _, _, _) => multiset{}
    case FunctionDefinitionStatement(_, _, _, args, _, inner) => IdsArgs(args, |args|) + IdsN(inner)
    case FunctionCallStatement(_, _, _, args) => IdsEs(args, |args|)
    case ChannelPushStatement(_, c, v) => IdsE(c) + IdsE(v)
    case AwaitStatement(_, a) => IdsE(a)
    case LambdaExpression(_, _, args, _, inner) => IdsArgs(args, |args|) + IdsN(inner)
  }

  ghost function IdsE(e: Expr): multiset<NodeId>
    decreases e, 1
  {
    multiset{e.id} + ChildIdsE(e)
  }

  /** The ids of the proper subtrees of an expression. */
  ghost function ChildIdsE(e: Expr): multiset<NodeId>
    decreases e, 0
  {
    match e
    case IntExpression(_, _) => multiset{}
    case FloatExpression(_) => multiset{}
    case BoolExpression(_, _) => multiset{}
    case StringExpression(_, _) => multiset{}
    case VariableExpression(_, _) => multiset{}
    case BinOpExpression(_, _, l, r) => IdsE(l) + IdsE(r)
    case NegateExpression(_, x) => IdsE(x)
    case ArrayAccessExpression(_, a, i) => IdsE(a) + IdsE(i)
    case ArrayLiteralExpression(_, items) => IdsEs(items, |items|)
    case FunctionCallExpression(_, _, _, args) => IdsEs(args, |args|)
    case AwaitExpression(_, a) => IdsE(a)
    case BlockExpression(_, ss, r) => IdsSs(ss, |ss|) + IdsE(r)
    case ChannelLoadExpression(_, c) => IdsE(c)
  }

  ghost function IdsN(n: Node): multiset<NodeId>
  {
    match n
    case StmtNode(s) => IdsS(s)
    case ExprNode(e) => IdsE(e)
    case ArgNode(a) => multiset{a.id}
  }

  ghost function IdsSs(ss: seq<Stmt>, n: nat): multiset<NodeId>
    requires n <= |ss|
    decreases ss, n
  {
    if n == 0 then multiset{} else IdsSs(ss, n - 1) + IdsS(ss[n - 1])
  }

  ghost function IdsEs(es: seq<Expr>, n: nat): multiset<NodeId>
    requires n <= |es|
    decreases es, n
  {
    if n == 0 then multiset{} else IdsEs(es, n - 1) + IdsE(es[n - 1])
  }

  ghost function IdsArgs(args: seq<FunctionArgument>, n: nat): multiset<NodeId>
    requires n <= |args|
  {
    if n == 0 then multiset{} else IdsArgs(args, n - 1) + multiset{args[n - 1].id}
  }

  ghost predicate Distinct(ids: multiset<NodeId>)
  {
    forall k | k in ids :: ids[k] == 1
  }

  ghost predicate UniqueStmt(s: Stmt) { Distinct(IdsS(s)) }

  ghost predicate UniqueExpr(e: Expr) { Distinct(IdsE(e)) }
}
