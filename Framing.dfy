/** What a check may touch.  A successful check of a node writes table
    entries only for the ids of that node's subtree, never removes an entry,
    and never changes or removes a binding of the current frame: a statement
    can only add names to it.  The lemmas follow the functions of `Typing`
    case by case, with the same termination measure. */
module Framing {
  import opened Outcomes
  import opened Llvm
  import opened SurfaceTypes
  import opened Ast
  import opened Typing

  /** Widening the ids a step may write keeps it framed. */
  lemma FramedWiden(a: TypeMap, b: TypeMap, ids: multiset<NodeId>, more: multiset<NodeId>)
    requires TypesFramed(a, b, ids)
    requires forall k :: k in ids ==> k in more
    ensures TypesFramed(a, b, more)
  {
  }

  // The ids of a node, in the order the checker writes them: children
  // first, then the node's own entry.

  lemma IdsArrayAccess(e: Expr)
    requires e.ArrayAccessExpression?
    ensures IdsE(e) == IdsE(e.arrayValue) + IdsE(e.index) + multiset{e.id}
  {
  }

  lemma IdsBinOp(e: Expr)
    requires e.BinOpExpression?
    ensures IdsE(e) == IdsE(e.left) + IdsE(e.right) + multiset{e.id}
  {
  }

  lemma IdsIf(s: Stmt)
    requires s.IfStatement?
    ensures s.elseStatement.Some? ==>
      IdsS(s) == IdsE(s.condition) + IdsS(s.thenStatement) + IdsS(s.elseStatement.value) + multiset{s.id}
    ensures s.elseStatement.None? ==>
      IdsS(s) == IdsE(s.condition) + IdsS(s.thenStatement) + multiset{s.id}
  {
  }

  lemma IdsWhile(s: Stmt)
    requires s.WhileStatement?
    ensures IdsS(s) == IdsE(s.condition) + IdsS(s.body) + multiset{s.id}
  {
  }

  /** A binding made through `Bind` keeps every binding of the frame. */
  lemma BindExtends(env: Env, name: string, t: LType)
    requires env != []
    ensures Extends(env[0], Bind(env, name, t)[0])
  {
  }

  lemma {:induction false} RecordParametersFrame(types: TypeMap, ps: seq<FunctionArgument>, n: nat)
    requires n <= |ps|
    ensures TypesFramed(types, RecordParameters(types, ps, n), IdsArgs(ps, n))
  {
    if n > 0 {
      RecordParametersFrame(types, ps, n - 1);
    }
  }

  // ---------------------------------------------------------------------
  // Statements

  lemma {:induction false} StmtFrame(s: Stmt, st: State, names: BasicNames)
    requires st.env != [] && CheckStmt(s, st, names).Success?
    ensures var r := CheckStmt(s, st, names).value;
      TypesFramed(st.types, r.types, IdsS(s)) && Extends(st.env[0], r.env[0])
    decreases s, 2
  {
    match s
    case BlockStatement(_, _) => BlockStatementFrame(s, st, names);
    case AssignmentStatement(_, _, _) => AssignmentFrame(s, st, names);
    case IfStatement(_, _, _, _) => IfFrame(s, st, names);
    case ReturnStatement(_, _) => ReturnFrame(s, st, names);
    case DeclarationStatement(_, _, _, _) => DeclarationFrame(s, st, names);
    case AwaitStatement(_, _) => AwaitStatementFrame(s, st, names);
    case ExternFunctionStatement(_, _, _, _) =>
    case FunctionCallStatement(_, _, _, args) =>
      ExprsFrame(args, |args|, st, names);
    case WhileStatement(_, _, _) => WhileFrame(s, st, names);
    case FunctionDefinitionStatement(_, _, _, _, _, _) => FunctionDefinitionFrame(s, st, names);
    case ForStatement(_, _, _, _, _) =>
    case ChannelPushStatement(_, _, _) =>
    case LambdaExpression(_, _, _, _, _) =>
  }

  lemma {:induction false} StmtsFrame(ss: seq<Stmt>, n: nat, st: State, names: BasicNames)
    requires n <= |ss| && st.env != [] && CheckStmts(ss, n, st, names).Success?
    ensures var r := CheckStmts(ss, n, st, names).value;
      TypesFramed(st.types, r.types, IdsSs(ss, n)) && Extends(st.env[0], r.env[0])
    decreases ss, n
  {
    if n > 0 {
      StmtsFrame(ss, n - 1, st, names);
      var st1 := CheckStmts(ss, n - 1, st, names).value;
      StmtFrame(ss[n - 1], st1, names);
      FramedTrans(st.types, st1.types, CheckStmts(ss, n, st, names).value.types, IdsSs(ss, n - 1), IdsS(ss[n - 1]));
    }
  }

  lemma {:induction false} BlockStatementFrame(s: Stmt, st: State, names: BasicNames)
    requires s.BlockStatement? && st.env != [] && CheckBlockStatement(s, st, names).Success?
    ensures var r := CheckBlockStatement(s, st, names).value;
      TypesFramed(st.types, r.types, IdsS(s)) && Extends(st.env[0], r.env[0])
    decreases s, 1
  {
    BlockStatementBodyFrame(s, State(st.types, [map[]] + st.env), names);
  }

  lemma {:induction false} BlockStatementBodyFrame(s: Stmt, st: State, names: BasicNames)
    requires s.BlockStatement? && st.env != [] && CheckBlockStatementBody(s, st, names).Success?
    ensures var r := CheckBlockStatementBody(s, st, names).value;
      TypesFramed(st.types, r.types, IdsS(s)) && Extends(st.env[0], r.env[0])
    decreases s, 0
  {
    StmtsFrame(s.statements, |s.statements|, st, names);
  }

  lemma {:induction false} AssignmentFrame(s: Stmt, st: State, names: BasicNames)
    requires s.AssignmentStatement? && st.env != [] && CheckAssignment(s, st, names).Success?
    ensures var r := CheckAssignment(s, st, names).value;
      TypesFramed(st.types, r.types, IdsS(s)) && r.env == st.env
    decreases s, 0
  {
    ExprFrame(s.value, st, names);
  }

  lemma {:induction false} IfFrame(s: Stmt, st: State, names: BasicNames)
    requires s.IfStatement? && st.env != [] && CheckIf(s, st, names).Success?
    ensures var r := CheckIf(s, st, names).value;
      TypesFramed(st.types, r.types, IdsS(s)) && Extends(st.env[0], r.env[0])
    decreases s, 0
  {
    IfLastStep(s, st, names);
    ExprFrame(s.condition, st, names);
    var st1 := CheckExpr(s.condition, st, names).value;
    StmtFrame(s.thenStatement, st1, names);
    var st2 := CheckStmt(s.thenStatement, st1, names).value;
    FramedTrans(st.types, st1.types, st2.types, IdsE(s.condition), IdsS(s.thenStatement));
    var r := CheckIf(s, st, names).value;
    if s.elseStatement.Some? {
      StmtFrame(s.elseStatement.value, st2, names);
      var st3 := CheckStmt(s.elseStatement.value, st2, names).value;
      var ids := IdsE(s.condition) + IdsS(s.thenStatement) + IdsS(s.elseStatement.value);
      FramedTrans(st.types, st2.types, st3.types, IdsE(s.condition) + IdsS(s.thenStatement), IdsS(s.elseStatement.value));
      FramedTrans(st.types, st3.types, r.types, ids, multiset{s.id});
      IdsIf(s);
    } else {
      var ids := IdsE(s.condition) + IdsS(s.thenStatement);
      FramedTrans(st.types, st2.types, r.types, ids, multiset{s.id});
      IdsIf(s);
    }
  }

  /** After its branches, an `if` writes only its own entry. */
  lemma IfLastStep(s: Stmt, st: State, names: BasicNames)
    requires s.IfStatement? && st.env != [] && CheckIf(s, st, names).Success?
    ensures CheckExpr(s.condition, st, names).Success?
    ensures var st1 := CheckExpr(s.condition, st, names).value;
      CheckStmt(s.thenStatement, st1, names).Success? &&
      var st2 := CheckStmt(s.thenStatement, st1, names).value;
      var r := CheckIf(s, st, names).value;
      if s.elseStatement.Some? then
        CheckStmt(s.elseStatement.value, st2, names).Success? &&
        var st3 := CheckStmt(s.elseStatement.value, st2, names).value;
        TypesFramed(st3.types, r.types, multiset{s.id}) && r.env == st3.env
      else
        TypesFramed(st2.types, r.types, multiset{s.id}) && r.env == st2.env
  {
  }

  lemma {:induction false} ReturnFrame(s: Stmt, st: State, names: BasicNames)
    requires s.ReturnStatement? && st.env != [] && CheckReturn(s, st, names).Success?
    ensures var r := CheckReturn(s, st, names).value;
      TypesFramed(st.types, r.types, IdsS(s)) && r.env == st.env
    decreases s, 0
  {
    if s.result.Some? {
      ExprFrame(s.result.value, st, names);
    }
  }

  lemma {:induction false} DeclarationFrame(s: Stmt, st: State, names: BasicNames)
    requires s.DeclarationStatement? && st.env != [] && CheckDeclaration(s, st, names).Success?
    ensures var r := CheckDeclaration(s, st, names).value;
      TypesFramed(st.types, r.types, IdsS(s)) && Extends(st.env[0], r.env[0])
    decreases s, 0
  {
    ExprFrame(s.value, st, names);
  }

  lemma {:induction false} AwaitStatementFrame(s: Stmt, st: State, names: BasicNames)
    requires s.AwaitStatement? && st.env != [] && CheckAwaitStatement(s, st, names).Success?
    ensures var r := CheckAwaitStatement(s, st, names).value;
      TypesFramed(st.types, r.types, IdsS(s)) && r.env == st.env
    decreases s, 0
  {
    ExprFrame(s.awaited, st, names);
  }

  lemma {:induction false} WhileFrame(s: Stmt, st: State, names: BasicNames)
    requires s.WhileStatement? && st.env != [] && CheckWhile(s, st, names).Success?
    ensures var r := CheckWhile(s, st, names).value;
      TypesFramed(st.types, r.types, IdsS(s)) && Extends(st.env[0], r.env[0])
    decreases s, 0
  {
    WhileLastStep(s, st, names);
    ExprFrame(s.condition, st, names);
    var st1 := CheckExpr(s.condition, st, names).value;
    StmtFrame(s.body, st1, names);
    var st2 := CheckStmt(s.body, st1, names).value;
    FramedTrans(st.types, st1.types, st2.types, IdsE(s.condition), IdsS(s.body));
    var r := CheckWhile(s, st, names).value;
    FramedTrans(st.types, st2.types, r.types, IdsE(s.condition) + IdsS(s.body), multiset{s.id});
    IdsWhile(s);
  }

  /** After its body, a `while` writes only its own entry. */
  lemma WhileLastStep(s: Stmt, st: State, names: BasicNames)
    requires s.WhileStatement? && st.env != [] && CheckWhile(s, st, names).Success?
    ensures CheckExpr(s.condition, st, names).Success?
    ensures var st1 := CheckExpr(s.condition, st, names).value;
      CheckStmt(s.body, st1, names).Success? &&
      var st2 := CheckStmt(s.body, st1, names).value;
      var r := CheckWhile(s, st, names).value;
      TypesFramed(st2.types, r.types, multiset{s.id}) && r.env == st2.env
  {
  }

  lemma {:induction false} FunctionDefinitionFrame(s: Stmt, st: State, names: BasicNames)
    requires s.FunctionDefinitionStatement? && st.env != [] && CheckFunctionDefinition(s, st, names).Success?
    ensures var r := CheckFunctionDefinition(s, st, names).value;
      TypesFramed(st.types, r.types, IdsS(s)) && Extends(st.env[0], r.env[0])
    decreases s, 0
  {
    var types1 := RecordParameters(st.types, s.parameters, |s.parameters|);
    RecordParametersFrame(st.types, s.parameters, |s.parameters|);
    var fnType := Fn(Typing.ToLLVM(s.returnType), ParameterEntries(s.parameters, types1), false);
    var bodyEnv := Bind([BindParameters(s.parameters, |s.parameters|)], s.functionName, fnType);
    NodeFrame(s.inner, State(types1, bodyEnv), names);
    var st2 := CheckNode(s.inner, State(types1, bodyEnv), names).value;
    var ids := IdsArgs(s.parameters, |s.parameters|) + IdsN(s.inner);
    FramedTrans(st.types, types1, st2.types, IdsArgs(s.parameters, |s.parameters|), IdsN(s.inner));
    var r := CheckFunctionDefinition(s, st, names).value;
    assert r.types == st2.types[s.id := st2.types[NodeIdOf(s.inner)]];
    assert ChildIdsS(s) == ids;
    FramedWiden(st.types, st2.types, ids, IdsS(s));
    BindExtends(st.env, s.functionName, fnType);
  }

  lemma {:induction false} NodeFrame(n: Node, st: State, names: BasicNames)
    requires st.env != [] && CheckNode(n, st, names).Success?
    ensures TypesFramed(st.types, CheckNode(n, st, names).value.types, IdsN(n))
    decreases n, 3
  {
    match n
    case StmtNode(s) => StmtFrame(s, st, names);
    case ExprNode(e) => ExprFrame(e, st, names);
    case ArgNode(_) =>
  }

  // ---------------------------------------------------------------------
  // Expressions

  lemma {:induction false} ExprFrame(e: Expr, st: State, names: BasicNames)
    requires st.env != [] && CheckExpr(e, st, names).Success?
    ensures TypesFramed(st.types, CheckExpr(e, st, names).value.types, IdsE(e))
    decreases e, 2
  {
    match e
    case StringExpression(_, _) =>
    case ArrayAccessExpression(_, _, _) => ArrayAccessFrame(e, st, names);
    case NegateExpression(_, _) => NegateFrame(e, st, names);
    case AwaitExpression(_, _) => AwaitExpressionFrame(e, st, names);
    case ArrayLiteralExpression(_, _) => ArrayLiteralFrame(e, st, names);
    case BinOpExpression(_, _, _, _) => BinOpFrame(e, st, names);
    case BlockExpression(_, _, _) => BlockExpressionFrame(e, st, names);
    case BoolExpression(_, _) =>
    case FloatExpression(_) =>
    case FunctionCallExpression(_, _, _, _) => CallFrame(e, st, names);
    case IntExpression(_, _) =>
    case VariableExpression(_, _) =>
    case ChannelLoadExpression(_, _) =>
  }

  lemma {:induction false} ExprsFrame(es: seq<Expr>, n: nat, st: State, names: BasicNames)
    requires n <= |es| && st.env != [] && CheckExprs(es, n, st, names).Success?
    ensures TypesFramed(st.types, CheckExprs(es, n, st, names).value.types, IdsEs(es, n))
    decreases es, n
  {
    if n > 0 {
      ExprsFrame(es, n - 1, st, names);
      var st1 := CheckExprs(es, n - 1, st, names).value;
      ExprFrame(es[n - 1], st1, names);
      FramedTrans(st.types, st1.types, CheckExprs(es, n, st, names).value.types, IdsEs(es, n - 1), IdsE(es[n - 1]));
    }
  }

  lemma {:induction false} ArrayAccessFrame(e: Expr, st: State, names: BasicNames)
    requires e.ArrayAccessExpression? && st.env != [] && CheckArrayAccess(e, st, names).Success?
    ensures TypesFramed(st.types, CheckArrayAccess(e, st, names).value.types, IdsE(e))
    decreases e, 0
  {
    ArrayAccessLastStep(e, st, names);
    ExprFrame(e.arrayValue, st, names);
    var st1 := CheckExpr(e.arrayValue, st, names).value;
    ExprFrame(e.index, st1, names);
    var st2 := CheckExpr(e.index, st1, names).value;
    FramedTrans(st.types, st1.types, st2.types, IdsE(e.arrayValue), IdsE(e.index));
    var r := CheckArrayAccess(e, st, names).value;
    FramedTrans(st.types, st2.types, r.types, IdsE(e.arrayValue) + IdsE(e.index), multiset{e.id});
    IdsArrayAccess(e);
  }

  /** After its operands, an array access writes only its own entry. */
  lemma ArrayAccessLastStep(e: Expr, st: State, names: BasicNames)
    requires e.ArrayAccessExpression? && st.env != [] && CheckArrayAccess(e, st, names).Success?
    ensures CheckExpr(e.arrayValue, st, names).Success?
    ensures CheckExpr(e.index, CheckExpr(e.arrayValue, st, names).value, names).Success?
    ensures var st2 := CheckExpr(e.index, CheckExpr(e.arrayValue, st, names).value, names).value;
      TypesFramed(st2.types, CheckArrayAccess(e, st, names).value.types, multiset{e.id})
  {
  }

  lemma {:induction false} NegateFrame(e: Expr, st: State, names: BasicNames)
    requires e.NegateExpression? && st.env != [] && CheckNegate(e, st, names).Success?
    ensures TypesFramed(st.types, CheckNegate(e, st, names).value.types, IdsE(e))
    decreases e, 0
  {
    ExprFrame(e.operand, st, names);
  }

  lemma {:induction false} AwaitExpressionFrame(e: Expr, st: State, names: BasicNames)
    requires e.AwaitExpression? && st.env != [] && CheckAwaitExpression(e, st, names).Success?
    ensures TypesFramed(st.types, CheckAwaitExpression(e, st, names).value.types, IdsE(e))
    decreases e, 0
  {
    ExprFrame(e.awaited, st, names);
  }

  lemma {:induction false} ArrayLiteralFrame(e: Expr, st: State, names: BasicNames)
    requires e.ArrayLiteralExpression? && st.env != [] && CheckArrayLiteral(e, st, names).Success?
    ensures TypesFramed(st.types, CheckArrayLiteral(e, st, names).value.types, IdsE(e))
    decreases e, 0
  {
    ExprsFrame(e.items, |e.items|, st, names);
  }

  lemma {:induction false} BinOpFrame(e: Expr, st: State, names: BasicNames)
    requires e.BinOpExpression? && st.env != [] && CheckBinOp(e, st, names).Success?
    ensures TypesFramed(st.types, CheckBinOp(e, st, names).value.types, IdsE(e))
    decreases e, 0
  {
    BinOpLastStep(e, st, names);
    ExprFrame(e.left, st, names);
    var st1 := CheckExpr(e.left, st, names).value;
    ExprFrame(e.right, st1, names);
    var st2 := CheckExpr(e.right, st1, names).value;
    FramedTrans(st.types, st1.types, st2.types, IdsE(e.left), IdsE(e.right));
    FramedTrans(st.types, st2.types, CheckBinOp(e, st, names).value.types, IdsE(e.left) + IdsE(e.right), multiset{e.id});
    IdsBinOp(e);
  }

  /** After its operands, a binary operation writes at most its own entry. */
  lemma BinOpLastStep(e: Expr, st: State, names: BasicNames)
    requires e.BinOpExpression? && st.env != [] && CheckBinOp(e, st, names).Success?
    ensures CheckExpr(e.left, st, names).Success?
    ensures CheckExpr(e.right, CheckExpr(e.left, st, names).value, names).Success?
    ensures var st2 := CheckExpr(e.right, CheckExpr(e.left, st, names).value, names).value;
      TypesFramed(st2.types, CheckBinOp(e, st, names).value.types, multiset{e.id})
  {
  }

  lemma {:induction false} BlockExpressionFrame(e: Expr, st: State, names: BasicNames)
    requires e.BlockExpression? && st.env != [] && CheckBlockExpression(e, st, names).Success?
    ensures TypesFramed(st.types, CheckBlockExpression(e, st, names).value.types, IdsE(e))
    decreases e, 1
  {
    BlockExpressionBodyFrame(e, State(st.types, [map[]] + st.env), names);
  }

  lemma {:induction false} BlockExpressionBodyFrame(e: Expr, st: State, names: BasicNames)
    requires e.BlockExpression? && st.env != [] && CheckBlockExpressionBody(e, st, names).Success?
    ensures TypesFramed(st.types, CheckBlockExpressionBody(e, st, names).value.types, IdsE(e))
    decreases e, 0
  {
    StmtsFrame(e.statements, |e.statements|, st, names);
    var inner := CheckStmts(e.statements, |e.statements|, st, names).value;
    ExprFrame(e.returnExpression, inner, names);
    var st2 := CheckExpr(e.returnExpression, inner, names).value;
    FramedTrans(st.types, inner.types, st2.types, IdsSs(e.statements, |e.statements|), IdsE(e.returnExpression));
  }

  lemma {:induction false} CallFrame(e: Expr, st: State, names: BasicNames)
    requires e.FunctionCallExpression? && st.env != [] && CheckCall(e, st, names).Success?
    ensures TypesFramed(st.types, CheckCall(e, st, names).value.types, IdsE(e))
    decreases e, 0
  {
    var fnc := Scopes.LookupIn(st.env, e.functionName).value.Type;
    if !fnc.vararg {
      ExprsFrame(e.arguments, |e.arguments|, st, names);
    }
  }
}
