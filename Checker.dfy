/** The checker object `TypeChecker`: a table from node to type that it fills
    as it walks the tree, and the scope chain it is currently in.

    Every visit method is proved against `CheckStmt`, `CheckExpr` or the
    function of module `Typing` for the same walk: started in a state, it
    reports the error that function reports, or ends in the state that
    function computes (`Reports`).  A method for one kind of node states its
    result through `CheckStmt` or `CheckExpr`, which for that kind is the
    function of the same name (`VisitIf` and `CheckIf`).  A
    thrown exception is an early return of `Some(error)`; the state left
    behind by a failed visit is not specified, as no caller looks at it. */
module Checker {
  import opened Outcomes
  import opened Llvm
  import opened SurfaceTypes
  import opened Ast
  import opened Typing
  import Scopes

  /** The state `now` is the one `r` describes, or `err` is the error `r`
      reports. */
  ghost predicate Reports(r: Result<State, CheckError>, err: Option<CheckError>, now: State)
  {
    match r
    case Success(st) => err.None? && now.types == st.types && now.env == st.env
    case Failure(e) => err == Some(e)
  }

  class TypeChecker {
    var types: TypeMap
    var typeStack: Scopes.VariableStack<TypeContainer>
    /** The `Name()` of each basic type, which `GenericName()` depends on. */
    const names: BasicNames

    /** The fields as the constructor sets them before it visits the
        program: an empty table and one root frame. */
    constructor (names: BasicNames)
      ensures typeStack.Valid() && fresh(typeStack.Repr)
      ensures State(types, typeStack.frames) == State(map[], [map[]])
      ensures this.names == names
    {
      types := map[];
      typeStack := new Scopes.VariableStack<TypeContainer>();
      this.names := names;
    }

    /** `root.Statements.ForEach(Visit)`, the rest of the constructor. */
    method VisitChunk(root: TwiceChunk) returns (err: Option<CheckError>)
      requires typeStack.Valid()
      modifies this, typeStack
      ensures typeStack.Valid()
      ensures Reports(CheckStmts(root.statements, |root.statements|, old(State(types, typeStack.frames)), names), err, State(types, typeStack.frames))
    {
      err := VisitStatements(root.statements);
    }

    /** `Visit`. */
    method Visit(n: Node) returns (err: Option<CheckError>)
      requires typeStack.Valid()
      modifies this, typeStack
      decreases n, 3
      ensures typeStack.Valid()
      ensures Reports(CheckNode(n, old(State(types, typeStack.frames)), names), err, State(types, typeStack.frames))
      ensures err.None? ==> typeStack == old(typeStack)
    {
      match n
      case StmtNode(s) => err := VisitStatement(s);
      case ExprNode(e) => err := VisitExpression(e);
      case ArgNode(a) => VisitArgument(a); err := None;
    }

    /** `Visit` on a function argument. */
    method VisitArgument(a: FunctionArgument)
      modifies this
      ensures types == old(types)[a.id := ToLLVM(a.argType)]
      ensures typeStack == old(typeStack)
    {
      types := types[a.id := ToLLVM(a.argType)];
    }

    // -------------------------------------------------------------------
    // Statements

    method VisitStatement(s: Stmt) returns (err: Option<CheckError>)
      requires typeStack.Valid()
      modifies this, typeStack
      decreases s, 2
      ensures typeStack.Valid()
      ensures Reports(CheckStmt(s, old(State(types, typeStack.frames)), names), err, State(types, typeStack.frames))
      ensures err.None? ==> typeStack == old(typeStack)
    {
      match s
      case BlockStatement(_, _) => err := VisitBlockStatement(s);
      case AssignmentStatement(_, _, _) => err := VisitAssignment(s);
      case IfStatement(_, _, _, _) => err := VisitIf(s);
      case ReturnStatement(_, _) => err := VisitReturn(s);
      case DeclarationStatement(_, _, _, _) => err := VisitDeclaration(s);
      case AwaitStatement(_, _) => err := VisitAwaitStatement(s);
      case ExternFunctionStatement(_, _, _, _) => err := VisitExtern(s);
      case FunctionCallStatement(_, _, _, args) => err := VisitExpressions(args);
      case WhileStatement(_, _, _) => err := VisitWhile(s);
      case FunctionDefinitionStatement(_, _, _, _, _, _) => err := VisitFunctionDefinition(s);
      case ForStatement(_, _, _, _, _) => err := None;
      case ChannelPushStatement(_, _, _) => err := None;
      case LambdaExpression(_, _, _, _, _) => err := None;
    }

    /** `ForEach(Visit)` over a list of statements in the current frame. */
    method VisitStatements(ss: seq<Stmt>) returns (err: Option<CheckError>)
      requires typeStack.Valid()
      modifies this, typeStack
      decreases ss, 3
      ensures typeStack.Valid()
      ensures Reports(CheckStmts(ss, |ss|, old(State(types, typeStack.frames)), names), err, State(types, typeStack.frames))
      ensures err.None? ==> typeStack == old(typeStack)
    {
      ghost var st0 := State(types, typeStack.frames);
      var i := 0;
      while i < |ss|
        invariant 0 <= i <= |ss|
        invariant typeStack == old(typeStack) && typeStack.Valid()
        invariant CheckStmts(ss, i, st0, names) == Success(State(types, typeStack.frames))
      {
        err := VisitStatement(ss[i]);
        if err.Some? {
          StmtsFailureSticks(ss, i + 1, |ss|, st0, names);
          return;
        }
        i := i + 1;
      }
      err := None;
    }

    method VisitBlockStatement(s: Stmt) returns (err: Option<CheckError>)
      requires s.BlockStatement? && typeStack.Valid()
      modifies this, typeStack
      decreases s, 1
      ensures typeStack.Valid()
      ensures Reports(CheckStmt(s, old(State(types, typeStack.frames)), names), err, State(types, typeStack.frames))
      ensures err.None? ==> typeStack == old(typeStack)
    {
      ghost var st0 := State(types, typeStack.frames);
      assert CheckStmt(s, st0, names) == CheckBlockStatement(s, st0, names);
      var parent := typeStack;
      typeStack := new Scopes.VariableStack<TypeContainer>.Nested(parent);
      err := VisitBlockStatementBody(s);
      if err.Some? {
        return;
      }
      // Not null: the frame pushed above is the innermost one.
      typeStack := typeStack.GetUpper();
    }

    /** The block's children and its entry, inside the block's frame. */
    method VisitBlockStatementBody(s: Stmt) returns (err: Option<CheckError>)
      requires s.BlockStatement? && typeStack.Valid()
      modifies this, typeStack
      decreases s, 0
      ensures typeStack.Valid()
      ensures Reports(CheckBlockStatementBody(s, old(State(types, typeStack.frames)), names), err, State(types, typeStack.frames))
      ensures err.None? ==> typeStack == old(typeStack)
    {
      err := VisitStatements(s.statements);
      if err.Some? {
        return;
      }
      var rets := EntryTypes(s.statements, types);
      if |rets| > 0 {
        if exists i :: 0 <= i < |rets| && rets[i] != rets[0] {
          return Some(TypeException(BlockTypesDiffer));
        }
        types := types[s.id := rets[0]];
      } else {
        types := types[s.id := Void];
      }
    }

    method VisitAssignment(s: Stmt) returns (err: Option<CheckError>)
      requires s.AssignmentStatement? && typeStack.Valid()
      modifies this, typeStack
      decreases s, 0
      ensures typeStack.Valid()
      ensures Reports(CheckStmt(s, old(State(types, typeStack.frames)), names), err, State(types, typeStack.frames))
      ensures err.None? ==> typeStack == old(typeStack)
    {
      ghost var st0 := State(types, typeStack.frames);
      assert CheckStmt(s, st0, names) == CheckAssignment(s, st0, names);
      if !typeStack.IsDefined(s.name) {
        return Some(TypeException(UndefinedVariable(s.name)));
      }
      var lookup := typeStack.Lookup(s.name).value.Type;
      if Kind(lookup) == FunctionKind {
        return Some(TypeException(FunctionUsedAsVariable));
      }
      err := VisitExpression(s.value);
      if err.Some? {
        return;
      }
      if s.value.id !in types {
        return Some(KeyNotFound(s.value.id));
      }
      if lookup != types[s.value.id] {
        return Some(TypeException(AssignmentMismatch(s.name)));
      }
    }

    method VisitIf(s: Stmt) returns (err: Option<CheckError>)
      requires s.IfStatement? && typeStack.Valid()
      modifies this, typeStack
      decreases s, 0
      ensures typeStack.Valid()
      ensures Reports(CheckStmt(s, old(State(types, typeStack.frames)), names), err, State(types, typeStack.frames))
      ensures err.None? ==> typeStack == old(typeStack)
    {
      ghost var st0 := State(types, typeStack.frames);
      assert CheckStmt(s, st0, names) == CheckIf(s, st0, names);
      err := VisitExpression(s.condition);
      if err.Some? {
        return;
      }
      if s.condition.id !in types {
        return Some(KeyNotFound(s.condition.id));
      }
      if types[s.condition.id] != I1 {
        return Some(TypeException(NonBooleanIfCondition));
      }
      err := VisitStatement(s.thenStatement);
      if err.Some? {
        return;
      }
      var typeThen := TypeOrVoid(types, s.thenStatement.id);
      if s.elseStatement.Some? {
        err := VisitStatement(s.elseStatement.value);
        if err.Some? {
          return;
        }
        if TypeOrVoid(types, s.elseStatement.value.id) != typeThen {
          return Some(TypeException(BranchTypesDiffer));
        }
      }
      types := types[s.id := typeThen];
    }

    method VisitReturn(s: Stmt) returns (err: Option<CheckError>)
      requires s.ReturnStatement? && typeStack.Valid()
      modifies this, typeStack
      decreases s, 0
      ensures typeStack.Valid()
      ensures Reports(CheckStmt(s, old(State(types, typeStack.frames)), names), err, State(types, typeStack.frames))
      ensures err.None? ==> typeStack == old(typeStack)
    {
      ghost var st0 := State(types, typeStack.frames);
      assert CheckStmt(s, st0, names) == CheckReturn(s, st0, names);
      if s.result.Some? {
        err := VisitExpression(s.result.value);
        if err.Some? {
          return;
        }
        if s.result.value.id !in types {
          return Some(KeyNotFound(s.result.value.id));
        }
        types := types[s.id := types[s.result.value.id]];
      } else {
        err := None;
        types := types[s.id := Void];
      }
    }

    method VisitDeclaration(s: Stmt) returns (err: Option<CheckError>)
      requires s.DeclarationStatement? && typeStack.Valid()
      modifies this, typeStack
      decreases s, 0
      ensures typeStack.Valid()
      ensures Reports(CheckStmt(s, old(State(types, typeStack.frames)), names), err, State(types, typeStack.frames))
      ensures err.None? ==> typeStack == old(typeStack)
    {
      ghost var st0 := State(types, typeStack.frames);
      assert CheckStmt(s, st0, names) == CheckDeclaration(s, st0, names);
      err := VisitExpression(s.value);
      if err.Some? {
        return;
      }
      if s.value.id !in types {
        return Some(KeyNotFound(s.value.id));
      }
      var added := typeStack.SetValue(s.name, TypeContainer(types[s.value.id]));
      if !added {
        return Some(TypeException(VariableAlreadyDefined));
      }
    }

    method VisitAwaitStatement(s: Stmt) returns (err: Option<CheckError>)
      requires s.AwaitStatement? && typeStack.Valid()
      modifies this, typeStack
      decreases s, 0
      ensures typeStack.Valid()
      ensures Reports(CheckStmt(s, old(State(types, typeStack.frames)), names), err, State(types, typeStack.frames))
      ensures err.None? ==> typeStack == old(typeStack)
    {
      ghost var st0 := State(types, typeStack.frames);
      assert CheckStmt(s, st0, names) == CheckAwaitStatement(s, st0, names);
      err := VisitExpression(s.awaited);
      if err.Some? {
        return;
      }
      if s.awaited.id !in types {
        return Some(KeyNotFound(s.awaited.id));
      }
      if Kind(types[s.awaited.id]) != StructKind {
        return Some(TypeException(AwaitOnNonPromise));
      }
    }

    method VisitExtern(s: Stmt) returns (err: Option<CheckError>)
      requires s.ExternFunctionStatement? && typeStack.Valid()
      modifies this, typeStack
      ensures typeStack.Valid()
      ensures Reports(CheckStmt(s, old(State(types, typeStack.frames)), names), err, State(types, typeStack.frames))
      ensures typeStack == old(typeStack)
    {
      ghost var st0 := State(types, typeStack.frames);
      assert CheckStmt(s, st0, names) == CheckExtern(s, st0, names);
      if typeStack.GetUpper() != null {
        return Some(TypeException(NestedFunctionDeclaration));
      }
      if GenericName(s.functionType, names) != "function" {
        return Some(TypeException(ExternNotFunction));
      }
      types := types[s.id := ToLLVM(s.functionType, s.vararg)];
      var _ := typeStack.SetValue(s.functionName, TypeContainer(types[s.id]));
      err := None;
    }

    method VisitWhile(s: Stmt) returns (err: Option<CheckError>)
      requires s.WhileStatement? && typeStack.Valid()
      modifies this, typeStack
      decreases s, 0
      ensures typeStack.Valid()
      ensures Reports(CheckStmt(s, old(State(types, typeStack.frames)), names), err, State(types, typeStack.frames))
      ensures err.None? ==> typeStack == old(typeStack)
    {
      ghost var st0 := State(types, typeStack.frames);
      assert CheckStmt(s, st0, names) == CheckWhile(s, st0, names);
      err := VisitExpression(s.condition);
      if err.Some? {
        return;
      }
      if s.condition.id !in types {
        return Some(KeyNotFound(s.condition.id));
      }
      if types[s.condition.id] != I1 {
        return Some(TypeException(NonBooleanWhileCondition));
      }
      err := VisitStatement(s.body);
      if err.Some? {
        return;
      }
      types := types[s.id := if s.body.id in types then types[s.body.id] else Void];
    }

    method VisitFunctionDefinition(s: Stmt) returns (err: Option<CheckError>)
      requires s.FunctionDefinitionStatement? && typeStack.Valid()
      modifies this, typeStack
      decreases s, 0
      ensures typeStack.Valid()
      ensures Reports(CheckStmt(s, old(State(types, typeStack.frames)), names), err, State(types, typeStack.frames))
      ensures err.None? ==> typeStack == old(typeStack)
    {
      ghost var st0 := State(types, typeStack.frames);
      assert CheckStmt(s, st0, names) == CheckFunctionDefinition(s, st0, names);
      if s.functionName == "main" {
        return Some(TypeException(FunctionNamedMain));
      }
      if typeStack.GetUpper() != null {
        return Some(TypeException(NestedFunctionDeclaration));
      }
      if s.async && GenericName(s.returnType, names) != "promise" {
        return Some(TypeException(AsyncMustReturnPromise));
      }
      var oldStack, fnType := EnterFunction(s);
      ghost var bodyState := State(types, typeStack.frames);
      err := Visit(s.inner);
      if err.Some? {
        return;
      }
      ghost var st2 := State(types, typeStack.frames);
      assert CheckNode(s.inner, bodyState, names) == Success(st2);
      assert oldStack.Valid() && oldStack.frames == st0.env;
      var innerId := NodeIdOf(s.inner);
      if innerId !in types {
        return Some(KeyNotFound(innerId));
      }
      if (if s.async then Struct([types[innerId]]) else types[innerId]) != ToLLVM(s.returnType) {
        return Some(TypeException(SignatureMismatch));
      }
      types := types[s.id := types[innerId]];
      typeStack := oldStack;
      var _ := typeStack.SetValue(s.functionName, TypeContainer(fnType));
    }

    /** The part of `Visit` on a definition that enters its body: the
        parameters get their entries, and a new root frame binds them and the
        function's own name; the frame it replaces is returned. */
    method EnterFunction(s: Stmt) returns (oldStack: Scopes.VariableStack<TypeContainer>, fnType: LType)
      requires s.FunctionDefinitionStatement? && typeStack.Valid()
      modifies this
      ensures oldStack == old(typeStack) && oldStack.Valid() && oldStack.frames == old(typeStack.frames)
      ensures typeStack.Valid() && fresh(typeStack.Repr)
      ensures types == RecordParameters(old(types), s.parameters, |s.parameters|)
      ensures fnType == Fn(ToLLVM(s.returnType), ParameterEntries(s.parameters, types), false)
      ensures typeStack.frames == Bind([BindParameters(s.parameters, |s.parameters|)], s.functionName, fnType)
    {
      oldStack := typeStack;
      typeStack := new Scopes.VariableStack<TypeContainer>();
      VisitArguments(s.parameters);
      fnType := Fn(ToLLVM(s.returnType), ParameterEntries(s.parameters, types), false);
      DefineParameters(typeStack, s.parameters);
      var _ := typeStack.SetValue(s.functionName, TypeContainer(fnType));
    }

    /** `Arguments.ForEach(Visit)`. */
    method VisitArguments(ps: seq<FunctionArgument>)
      modifies this
      ensures types == RecordParameters(old(types), ps, |ps|)
      ensures typeStack == old(typeStack)
    {
      var i := 0;
      while i < |ps|
        invariant 0 <= i <= |ps|
        invariant types == RecordParameters(old(types), ps, i)
        invariant typeStack == old(typeStack)
      {
        VisitArgument(ps[i]);
        i := i + 1;
      }
    }

    /** `SetValue` of each parameter in a new root frame. */
    static method DefineParameters(stack: Scopes.VariableStack<TypeContainer>, ps: seq<FunctionArgument>)
      requires stack.Valid() && stack.frames == [map[]]
      modifies stack
      ensures stack.Valid() && stack.frames == [BindParameters(ps, |ps|)]
    {
      var i := 0;
      while i < |ps|
        invariant 0 <= i <= |ps|
        invariant stack.Valid() && stack.frames == [BindParameters(ps, i)]
      {
        var _ := stack.SetValue(ps[i].name, TypeContainer(ToLLVM(ps[i].argType)));
        i := i + 1;
      }
    }

    // -------------------------------------------------------------------
    // Expressions

    method VisitExpression(e: Expr) returns (err: Option<CheckError>)
      requires typeStack.Valid()
      modifies this, typeStack
      decreases e, 2
      ensures typeStack.Valid()
      ensures Reports(CheckExpr(e, old(State(types, typeStack.frames)), names), err, State(types, typeStack.frames))
      ensures err.None? ==> typeStack == old(typeStack)
    {
      match e
      case StringExpression(_, _) => err := VisitLiteral(e);
      case ArrayAccessExpression(_, _, _) => err := VisitArrayAccess(e);
      case NegateExpression(_, _) => err := VisitNegate(e);
      case AwaitExpression(_, _) => err := VisitAwaitExpression(e);
      case ArrayLiteralExpression(_, _) => err := VisitArrayLiteral(e);
      case BinOpExpression(_, _, _, _) => err := VisitBinOp(e);
      case BlockExpression(_, _, _) => err := VisitBlockExpression(e);
      case BoolExpression(_, _) => err := VisitLiteral(e);
      case FloatExpression(_) => err := VisitLiteral(e);
      case FunctionCallExpression(_, _, _, _) => err := VisitCall(e);
      case IntExpression(_, _) => err := VisitLiteral(e);
      case VariableExpression(_, _) => err := VisitVariable(e);
      case ChannelLoadExpression(_, _) => err := None;
    }

    /** The literal cases of `VisitExpression`: each records its own type. */
    method VisitLiteral(e: Expr) returns (err: Option<CheckError>)
      requires e.StringExpression? || e.BoolExpression? || e.FloatExpression? || e.IntExpression?
      requires typeStack.Valid()
      modifies this
      ensures typeStack == old(typeStack) && typeStack.Valid()
      ensures Reports(CheckExpr(e, old(State(types, typeStack.frames)), names), err, State(types, typeStack.frames))
    {
      err := None;
      match e
      case StringExpression(id, _) => types := types[id := Ptr(I8)];
      case BoolExpression(id, _) => types := types[id := I1];
      case FloatExpression(id) => types := types[id := Double];
      case IntExpression(id, _) => types := types[id := I32];
    }

    /** `ForEach(Visit)` over a list of expressions. */
    method VisitExpressions(es: seq<Expr>) returns (err: Option<CheckError>)
      requires typeStack.Valid()
      modifies this, typeStack
      decreases es, 3
      ensures typeStack.Valid()
      ensures Reports(CheckExprs(es, |es|, old(State(types, typeStack.frames)), names), err, State(types, typeStack.frames))
      ensures err.None? ==> typeStack == old(typeStack)
    {
      ghost var st0 := State(types, typeStack.frames);
      var i := 0;
      while i < |es|
        invariant 0 <= i <= |es|
        invariant typeStack == old(typeStack) && typeStack.Valid()
        invariant CheckExprs(es, i, st0, names) == Success(State(types, typeStack.frames))
      {
        err := VisitExpression(es[i]);
        if err.Some? {
          ExprsFailureSticks(es, i + 1, |es|, st0, names);
          return;
        }
        i := i + 1;
      }
      err := None;
    }

    method VisitArrayAccess(e: Expr) returns (err: Option<CheckError>)
      requires e.ArrayAccessExpression? && typeStack.Valid()
      modifies this, typeStack
      decreases e, 0
      ensures typeStack.Valid()
      ensures Reports(CheckExpr(e, old(State(types, typeStack.frames)), names), err, State(types, typeStack.frames))
      ensures err.None? ==> typeStack == old(typeStack)
    {
      ghost var st0 := State(types, typeStack.frames);
      assert CheckExpr(e, st0, names) == CheckArrayAccess(e, st0, names);
      err := VisitExpression(e.arrayValue);
      if err.Some? {
        return;
      }
      err := VisitExpression(e.index);
      if err.Some? {
        return;
      }
      if e.index.id !in types {
        return Some(KeyNotFound(e.index.id));
      }
      if Kind(types[e.index.id]) != IntegerKind {
        return Some(TypeException(IndexNotNumber));
      }
      if e.arrayValue.id !in types {
        return Some(KeyNotFound(e.arrayValue.id));
      }
      if Kind(types[e.arrayValue.id]) != ArrayKind {
        return Some(TypeException(NotAnArray));
      }
      types := types[e.id := types[e.arrayValue.id].elem];
    }

    method VisitNegate(e: Expr) returns (err: Option<CheckError>)
      requires e.NegateExpression? && typeStack.Valid()
      modifies this, typeStack
      decreases e, 0
      ensures typeStack.Valid()
      ensures Reports(CheckExpr(e, old(State(types, typeStack.frames)), names), err, State(types, typeStack.frames))
      ensures err.None? ==> typeStack == old(typeStack)
    {
      ghost var st0 := State(types, typeStack.frames);
      assert CheckExpr(e, st0, names) == CheckNegate(e, st0, names);
      err := VisitExpression(e.operand);
      if err.Some? {
        return;
      }
      if e.operand.id !in types {
        return Some(KeyNotFound(e.operand.id));
      }
      if types[e.operand.id] != I1 {
        return Some(TypeException(NegationOfNonBoolean));
      }
      types := types[e.id := I1];
    }

    method VisitAwaitExpression(e: Expr) returns (err: Option<CheckError>)
      requires e.AwaitExpression? && typeStack.Valid()
      modifies this, typeStack
      decreases e, 0
      ensures typeStack.Valid()
      ensures Reports(CheckExpr(e, old(State(types, typeStack.frames)), names), err, State(types, typeStack.frames))
      ensures err.None? ==> typeStack == old(typeStack)
    {
      ghost var st0 := State(types, typeStack.frames);
      assert CheckExpr(e, st0, names) == CheckAwaitExpression(e, st0, names);
      err := VisitExpression(e.awaited);
      if err.Some? {
        return;
      }
      if e.awaited.id !in types {
        return Some(KeyNotFound(e.awaited.id));
      }
      var t := types[e.awaited.id];
      if Kind(t) != StructKind {
        return Some(TypeException(AwaitOnNonPromise));
      }
      if |t.fields| == 0 {
        return Some(IndexOutOfRange);
      }
      types := types[e.id := t.fields[0]];
    }

    method VisitArrayLiteral(e: Expr) returns (err: Option<CheckError>)
      requires e.ArrayLiteralExpression? && typeStack.Valid()
      modifies this, typeStack
      decreases e, 0
      ensures typeStack.Valid()
      ensures Reports(CheckExpr(e, old(State(types, typeStack.frames)), names), err, State(types, typeStack.frames))
      ensures err.None? ==> typeStack == old(typeStack)
    {
      ghost var st0 := State(types, typeStack.frames);
      assert CheckExpr(e, st0, names) == CheckArrayLiteral(e, st0, names);
      if |e.items| == 0 {
        return Some(TypeException(EmptyArrayLiteral));
      }
      err := VisitExpressions(e.items);
      if err.Some? {
        return;
      }
      if e.items[0].id !in types {
        return Some(KeyNotFound(e.items[0].id));
      }
      var first := types[e.items[0].id];
      var differs := AnyItemDiffers(e.items, types, first);
      if differs.Failure? {
        return Some(differs.error);
      }
      if differs.value {
        return Some(TypeException(ArrayItemsDiffer));
      }
      types := types[e.id := Arr(first, |e.items|)];
    }

    method VisitBinOp(e: Expr) returns (err: Option<CheckError>)
      requires e.BinOpExpression? && typeStack.Valid()
      modifies this, typeStack
      decreases e, 0
      ensures typeStack.Valid()
      ensures Reports(CheckExpr(e, old(State(types, typeStack.frames)), names), err, State(types, typeStack.frames))
      ensures err.None? ==> typeStack == old(typeStack)
    {
      ghost var st0 := State(types, typeStack.frames);
      assert CheckExpr(e, st0, names) == CheckBinOp(e, st0, names);
      err := VisitExpression(e.left);
      if err.Some? {
        return;
      }
      ghost var st1 := State(types, typeStack.frames);
      err := VisitExpression(e.right);
      if err.Some? {
        return;
      }
      assert CheckExpr(e.right, st1, names) == Success(State(types, typeStack.frames));
      if e.left.id !in types {
        return Some(KeyNotFound(e.left.id));
      }
      if e.right.id !in types {
        return Some(KeyNotFound(e.right.id));
      }
      var lt, rt := types[e.left.id], types[e.right.id];
      if lt != rt {
        return Some(TypeException(OperandsDiffer(e.operation)));
      }
      var result := OperatorType(e.operation, lt, rt);
      if result.Failure? {
        return Some(TypeException(result.error));
      }
      if result.value.Some? {
        types := types[e.id := result.value.value];
      }
    }

    method VisitBlockExpression(e: Expr) returns (err: Option<CheckError>)
      requires e.BlockExpression? && typeStack.Valid()
      modifies this, typeStack
      decreases e, 1
      ensures typeStack.Valid()
      ensures Reports(CheckExpr(e, old(State(types, typeStack.frames)), names), err, State(types, typeStack.frames))
      ensures err.None? ==> typeStack == old(typeStack)
    {
      ghost var st0 := State(types, typeStack.frames);
      assert CheckExpr(e, st0, names) == CheckBlockExpression(e, st0, names);
      var parent := typeStack;
      typeStack := new Scopes.VariableStack<TypeContainer>.Nested(parent);
      assert State(types, typeStack.frames) == State(st0.types, [map[]] + st0.env);
      err := VisitBlockExpressionBody(e);
      if err.Some? {
        return;
      }
      ghost var inner := State(types, typeStack.frames);
      assert inner.env[1..] == parent.frames;
      // Not null: the frame pushed above is the innermost one.
      typeStack := typeStack.GetUpper();
      assert State(types, typeStack.frames) == State(inner.types, inner.env[1..]);
    }

    /** The statements and the result expression, inside the block's frame. */
    method VisitBlockExpressionBody(e: Expr) returns (err: Option<CheckError>)
      requires e.BlockExpression? && typeStack.Valid()
      modifies this, typeStack
      decreases e, 0
      ensures typeStack.Valid()
      ensures Reports(CheckBlockExpressionBody(e, old(State(types, typeStack.frames)), names), err, State(types, typeStack.frames))
      ensures err.None? ==> typeStack == old(typeStack)
    {
      err := VisitStatements(e.statements);
      if err.Some? {
        return;
      }
      err := VisitExpression(e.returnExpression);
      if err.Some? {
        return;
      }
      if e.returnExpression.id !in types {
        return Some(KeyNotFound(e.returnExpression.id));
      }
      types := types[e.id := types[e.returnExpression.id]];
    }

    method VisitCall(e: Expr) returns (err: Option<CheckError>)
      requires e.FunctionCallExpression? && typeStack.Valid()
      modifies this, typeStack
      decreases e, 0
      ensures typeStack.Valid()
      ensures Reports(CheckExpr(e, old(State(types, typeStack.frames)), names), err, State(types, typeStack.frames))
      ensures err.None? ==> typeStack == old(typeStack)
    {
      ghost var st0 := State(types, typeStack.frames);
      assert CheckExpr(e, st0, names) == CheckCall(e, st0, names);
      if !typeStack.IsDefined(e.functionName) {
        return Some(TypeException(NonexistentFunction));
      }
      var fnc := typeStack.Lookup(e.functionName).value.Type;
      if Kind(fnc) != FunctionKind {
        return Some(TypeException(CallOfNonFunction));
      }
      if fnc.vararg {
        types := types[e.id := fnc.ret];
        return None;
      }
      err := VisitExpressions(e.arguments);
      if err.Some? {
        return;
      }
      if |fnc.params| != |e.arguments| {
        return Some(TypeException(ArgumentCountMismatch));
      }
      var i := 0;
      while i < |fnc.params|
        invariant 0 <= i <= |fnc.params|
        invariant CheckArgumentTypes(e.functionName, fnc.params, e.arguments, types, 0)
               == CheckArgumentTypes(e.functionName, fnc.params, e.arguments, types, i)
      {
        if e.arguments[i].id !in types {
          return Some(KeyNotFound(e.arguments[i].id));
        }
        if fnc.params[i] != types[e.arguments[i].id] {
          return Some(TypeException(ArgumentTypeMismatch(i + 1, e.functionName)));
        }
        i := i + 1;
      }
      types := types[e.id := fnc.ret];
    }

    method VisitVariable(e: Expr) returns (err: Option<CheckError>)
      requires e.VariableExpression? && typeStack.Valid()
      modifies this
      ensures typeStack.Valid()
      ensures Reports(CheckExpr(e, old(State(types, typeStack.frames)), names), err, State(types, typeStack.frames))
      ensures typeStack == old(typeStack)
    {
      ghost var st0 := State(types, typeStack.frames);
      assert CheckExpr(e, st0, names) == CheckVariable(e, st0);
      if !typeStack.IsDefined(e.variable) {
        return Some(TypeException(UndefinedVariable(e.variable)));
      }
      var lookup := typeStack.Lookup(e.variable).value.Type;
      if Kind(lookup) == FunctionKind {
        return Some(TypeException(FunctionUsedAsVariable));
      }
      types := types[e.id := lookup];
      err := None;
    }
  }

  /** The whole pass: construct a checker for `root` and read its table, or
      the exception that construction throws.  Its outcome is the
      specification's, so it depends on nothing but the tree. */
  method Check(root: TwiceChunk, names: BasicNames) returns (r: Result<TypeMap, CheckError>)
    ensures r == CheckProgram(root, names)
  {
    var checker := new TypeChecker(names);
    var err := checker.VisitChunk(root);
    r := if err.None? then Success(checker.types) else Failure(err.value);
  }
}
