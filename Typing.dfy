/** The type encoding `ToLLVM` and a functional specification of the checker's
    pass (`TypeChecker.VisitStatement`, `VisitExpression`, `Visit`).

    A check runs on a `State`: the table from node to type (`types`) and the
    scope chain as a list of frames, innermost first (`env`).  Every function
    follows one case of the source's visitor, in the source's order, so that
    the first rule violation it meets is the error it reports. */
module Typing {
  import opened Outcomes
  import opened Llvm
  import opened SurfaceTypes
  import opened Ast
  import Scopes

  /** What the checker's scope chain stores for a name. */
  datatype TypeContainer = TypeContainer(Type: LType)

  type Frame = map<string, TypeContainer>
  type Env = seq<Frame>
  type TypeMap = map<NodeId, LType>

  datatype State = State(types: TypeMap, env: Env)

  /** The messages of the `TypeException`s the checker throws. */
  datatype Reason =
    | BlockTypesDiffer
    | UndefinedVariable(name: string)
    | FunctionUsedAsVariable
    | AssignmentMismatch(name: string)
    | NonBooleanIfCondition
    | BranchTypesDiffer
    | VariableAlreadyDefined
    | AwaitOnNonPromise
    | NestedFunctionDeclaration
    | ExternNotFunction
    | NonBooleanWhileCondition
    | FunctionNamedMain
    | AsyncMustReturnPromise
    | SignatureMismatch
    | IndexNotNumber
    | NotAnArray
    | NegationOfNonBoolean
    | EmptyArrayLiteral
    | ArrayItemsDiffer
    | OperandsDiffer(operation: BinaryOperation)
    | ArithmeticOnNonNumber
    | RemainderOnNonInt
    | EqualityOperandsDiffer
    | EqualityOnInvalidType
    | LogicalOperandsDiffer
    | LogicalOnNonBool
    | NonexistentFunction
    | CallOfNonFunction
    | ArgumentCountMismatch
    | ArgumentTypeMismatch(position: nat, callee: string)

  /** Everything that ends the pass: a `TypeException`, or a runtime exception
      of the checker itself -- `types[x]` for a node without an entry
      (`KeyNotFoundException`) and `StructElementTypes[0]` of a struct without
      fields. */
  datatype CheckError =
    | TypeException(reason: Reason)
    | KeyNotFound(id: NodeId)
    | IndexOutOfRange

  // ---------------------------------------------------------------------
  // Type encoding

  /** `ToLLVM(type, fnVararg)`: the vararg flag applies to the outermost
      function type only; any other type (a channel) becomes `void`. */
  function ToLLVM(t: TypeNode, fnVararg: bool := false): (r: LType)
    ensures r != I8 && !r.Arr?
    ensures r.Fn? <==> t.FunctionType?
    ensures r.Fn? ==> r.vararg == fnVararg
  {
    match t
    case ArrayType(x) => Ptr(ToLLVM(x))
    case Basic(BoolType) => I1
    case Basic(FloatType) => Double
    case Basic(IntType) => I32
    case Basic(StringType) => Ptr(I8)
    case Basic(VoidType) => Void
    case PromiseType(x) => Struct([ToLLVM(x)])
    case FunctionType(ret, args) => Fn(ToLLVM(ret), ToLLVMAll(args), fnVararg)
    case ChannelType(_) => Void
  }

  /** `ArgumentTypes.Select(x => ToLLVM(x))`. */
  function ToLLVMAll(ts: seq<TypeNode>): (r: seq<LType>)
    ensures |r| == |ts|
    ensures forall i :: 0 <= i < |ts| ==> r[i] == ToLLVM(ts[i])
  {
    if ts == [] then [] else [ToLLVM(ts[0])] + ToLLVMAll(ts[1..])
  }

  // ---------------------------------------------------------------------
  // Helpers for the table and the scope chain

  /** `types[id]`, which throws when the node has no entry. */
  function Entry(types: TypeMap, id: NodeId): (r: Result<LType, CheckError>)
    ensures r.Success? <==> id in types
    ensures r.Success? ==> r.value == types[id]
    ensures r.Failure? ==> r.error == KeyNotFound(id)
  {
    if id in types then Success(types[id]) else Failure(KeyNotFound(id))
  }

  /** `types.TryGetValue(id, out var t) ? t : Void`. */
  function TypeOrVoid(types: TypeMap, id: NodeId): LType
  {
    if id in types then types[id] else Void
  }

  /** `typeStack.SetValue(name, new TypeContainer(t))` with its result
      ignored. */
  function Bind(env: Env, name: string, t: LType): Env
    requires env != []
  {
    Scopes.DefineIn(env, name, TypeContainer(t)).1
  }

  /** Nothing outside `ids` gained, lost or changed its entry, and no entry
      was removed. */
  ghost predicate TypesFramed(before: TypeMap, after: TypeMap, ids: multiset<NodeId>)
  {
    && before.Keys <= after.Keys
    && forall k | k in after && k !in ids :: k in before && after[k] == before[k]
  }

  /** Framing composes: two steps write only what either may write. */
  lemma FramedTrans(a: TypeMap, b: TypeMap, c: TypeMap, i1: multiset<NodeId>, i2: multiset<NodeId>)
    requires TypesFramed(a, b, i1) && TypesFramed(b, c, i2)
    ensures TypesFramed(a, c, i1 + i2)
  {
  }

  /** Every binding of `f` is still in `g`, unchanged. */
  ghost predicate Extends(f: Frame, g: Frame)
  {
    forall k | k in f :: k in g && g[k] == f[k]
  }

  /** What a statement does to the scope chain: the outer frames stay as
      they are; only the innermost one may change. */
  ghost predicate StmtShape(st: State, r: Result<State, CheckError>)
    requires st.env != []
  {
    r.Success? ==> |r.value.env| == |st.env| && r.value.env[1..] == st.env[1..]
  }

  /** An expression leaves the scope chain as it found it. */
  ghost predicate ExprShape(st: State, r: Result<State, CheckError>)
  {
    r.Success? ==> r.value.env == st.env
  }

  // ---------------------------------------------------------------------
  // Statements

  function CheckStmt(s: Stmt, st: State, names: BasicNames): (r: Result<State, CheckError>)
    requires st.env != []
    ensures StmtShape(st, r)
    decreases s, 2
  {
    match s
    case BlockStatement(_, _) => CheckBlockStatement(s, st, names)
    case AssignmentStatement(_, _, _) => CheckAssignment(s, st, names)
    case IfStatement(_, _, _, _) => CheckIf(s, st, names)
    case ReturnStatement(_, _) => CheckReturn(s, st, names)
    case DeclarationStatement(_, _, _, _) => CheckDeclaration(s, st, names)
    case AwaitStatement(_, _) => CheckAwaitStatement(s, st, names)
    case ExternFunctionStatement(_, _, _, _) => CheckExtern(s, st, names)
    case FunctionCallStatement(_, _, _, args) => CheckExprs(args, |args|, st, names)
    case WhileStatement(_, _, _) => CheckWhile(s, st, names)
    case FunctionDefinitionStatement(_, _, _, _, _, _) => CheckFunctionDefinition(s, st, names)
    // No case in the checker: no entry, no error, children not visited.
    case ForStatement(_, _, _, _, _) => Success(st)
    case ChannelPushStatement(_, _, _) => Success(st)
    case LambdaExpression(_, _, _, _, _) => Success(st)
  }

  /** `statements.ForEach(Visit)` over the first `n` statements. */
  function CheckStmts(ss: seq<Stmt>, n: nat, st: State, names: BasicNames): (r: Result<State, CheckError>)
    requires n <= |ss| && st.env != []
    ensures StmtShape(st, r)
    decreases ss, n
  {
    if n == 0 then Success(st)
    else
      var st1 :- CheckStmts(ss, n - 1, st, names);
      CheckStmt(ss[n - 1], st1, names)
  }

  /** Once a statement of a list fails, the rest of the list is not checked:
      the failure is the list's. */
  lemma {:induction false} StmtsFailureSticks(ss: seq<Stmt>, n: nat, m: nat, st: State, names: BasicNames)
    requires n <= m <= |ss| && st.env != []
    requires CheckStmts(ss, n, st, names).Failure?
    ensures CheckStmts(ss, m, st, names) == CheckStmts(ss, n, st, names)
    decreases m
  {
    if m > n {
      StmtsFailureSticks(ss, n, m - 1, st, names);
    }
  }

  /** `FindAll(x => types.ContainsKey(x)).Select(x => types[x])`: the entries
      of the statements that have one, in order. */
  function EntryTypes(ss: seq<Stmt>, types: TypeMap): (r: seq<LType>)
    ensures forall t :: t in r <==> exists i :: 0 <= i < |ss| && ss[i].id in types && types[ss[i].id] == t
  {
    if ss == [] then []
    else
      assert forall i :: 1 <= i < |ss| ==> ss[i] == ss[1..][i - 1];
      (if ss[0].id in types then [types[ss[0].id]] else []) + EntryTypes(ss[1..], types)
  }

  /** A block is checked in a new frame, which is dropped afterwards. */
  function CheckBlockStatement(s: Stmt, st: State, names: BasicNames): (r: Result<State, CheckError>)
    requires s.BlockStatement? && st.env != []
    ensures StmtShape(st, r)
    ensures r.Success? ==> r.value.env == st.env
    decreases s, 1
  {
    var inner :- CheckBlockStatementBody(s, State(st.types, [map[]] + st.env), names);
    // `GetUpper()` is not null here: the frame pushed above is still the
    // innermost one.
    Success(State(inner.types, inner.env[1..]))
  }

  /** A block inside its frame: the children in order; then the block's type
      is the common type of the children that have an entry, or `void`. */
  function CheckBlockStatementBody(s: Stmt, st: State, names: BasicNames): (r: Result<State, CheckError>)
    requires s.BlockStatement? && st.env != []
    ensures StmtShape(st, r)
    decreases s, 0
  {
    var inner :- CheckStmts(s.statements, |s.statements|, st, names);
    var rets := EntryTypes(s.statements, inner.types);
    if |rets| > 0 && exists i :: 0 <= i < |rets| && rets[i] != rets[0] then
      Failure(TypeException(BlockTypesDiffer))
    else
      Success(inner.(types := inner.types[s.id := if |rets| > 0 then rets[0] else Void]))
  }

  function CheckAssignment(s: Stmt, st: State, names: BasicNames): (r: Result<State, CheckError>)
    requires s.AssignmentStatement? && st.env != []
    ensures StmtShape(st, r)
    decreases s, 0
  {
    var found := Scopes.LookupIn(st.env, s.name);
    if found.None? then Failure(TypeException(UndefinedVariable(s.name)))
    else if Kind(found.value.Type) == FunctionKind then Failure(TypeException(FunctionUsedAsVariable))
    else
      var st1 :- CheckExpr(s.value, st, names);
      var t :- Entry(st1.types, s.value.id);
      if found.value.Type != t then Failure(TypeException(AssignmentMismatch(s.name)))
      else Success(st1)
  }

  function CheckIf(s: Stmt, st: State, names: BasicNames): (r: Result<State, CheckError>)
    requires s.IfStatement? && st.env != []
    ensures StmtShape(st, r)
    decreases s, 0
  {
    var st1 :- CheckExpr(s.condition, st, names);
    var c :- Entry(st1.types, s.condition.id);
    if c != I1 then Failure(TypeException(NonBooleanIfCondition))
    else
      var st2 :- CheckStmt(s.thenStatement, st1, names);
      var typeThen := TypeOrVoid(st2.types, s.thenStatement.id);
      if s.elseStatement.Some? then
        var st3 :- CheckStmt(s.elseStatement.value, st2, names);
        if TypeOrVoid(st3.types, s.elseStatement.value.id) != typeThen then
          Failure(TypeException(BranchTypesDiffer))
        else
          Success(st3.(types := st3.types[s.id := typeThen]))
      else
        Success(st2.(types := st2.types[s.id := typeThen]))
  }

  function CheckReturn(s: Stmt, st: State, names: BasicNames): (r: Result<State, CheckError>)
    requires s.ReturnStatement? && st.env != []
    ensures StmtShape(st, r)
    decreases s, 0
  {
    if s.result.None? then Success(st.(types := st.types[s.id := Void]))
    else
      var st1 :- CheckExpr(s.result.value, st, names);
      var t :- Entry(st1.types, s.result.value.id);
      Success(st1.(types := st1.types[s.id := t]))
  }

  function CheckDeclaration(s: Stmt, st: State, names: BasicNames): (r: Result<State, CheckError>)
    requires s.DeclarationStatement? && st.env != []
    ensures StmtShape(st, r)
    decreases s, 0
  {
    var st1 :- CheckExpr(s.value, st, names);
    var t :- Entry(st1.types, s.value.id);
    if s.name in st1.env[0] then Failure(TypeException(VariableAlreadyDefined))
    else Success(st1.(env := Bind(st1.env, s.name, t)))
  }

  function CheckAwaitStatement(s: Stmt, st: State, names: BasicNames): (r: Result<State, CheckError>)
    requires s.AwaitStatement? && st.env != []
    ensures StmtShape(st, r)
    decreases s, 0
  {
    var st1 :- CheckExpr(s.awaited, st, names);
    var t :- Entry(st1.types, s.awaited.id);
    if Kind(t) != StructKind then Failure(TypeException(AwaitOnNonPromise))
    else Success(st1)
  }

  function CheckExtern(s: Stmt, st: State, names: BasicNames): (r: Result<State, CheckError>)
    requires s.ExternFunctionStatement? && st.env != []
    ensures StmtShape(st, r)
  {
    if |st.env| > 1 then Failure(TypeException(NestedFunctionDeclaration))
    else if GenericName(s.functionType, names) != "function" then Failure(TypeException(ExternNotFunction))
    else
      var t := ToLLVM(s.functionType, s.vararg);
      Success(State(st.types[s.id := t], Bind(st.env, s.functionName, t)))
  }

  function CheckWhile(s: Stmt, st: State, names: BasicNames): (r: Result<State, CheckError>)
    requires s.WhileStatement? && st.env != []
    ensures StmtShape(st, r)
    decreases s, 0
  {
    var st1 :- CheckExpr(s.condition, st, names);
    var c :- Entry(st1.types, s.condition.id);
    if c != I1 then Failure(TypeException(NonBooleanWhileCondition))
    else
      var st2 :- CheckStmt(s.body, st1, names);
      Success(st2.(types := st2.types[s.id := TypeOrVoid(st2.types, s.body.id)]))
  }

  /** `Arguments.ForEach(Visit)` on a definition's parameters, first `n`. */
  function RecordParameters(types: TypeMap, ps: seq<FunctionArgument>, n: nat): (r: TypeMap)
    requires n <= |ps|
    ensures forall i :: 0 <= i < n ==> ps[i].id in r
  {
    if n == 0 then types
    else RecordParameters(types, ps, n - 1)[ps[n - 1].id := ToLLVM(ps[n - 1].argType)]
  }

  /** `Arguments.Select(x => types[x])`. */
  function ParameterEntries(ps: seq<FunctionArgument>, types: TypeMap): (r: seq<LType>)
    requires forall i :: 0 <= i < |ps| ==> ps[i].id in types
    ensures |r| == |ps| && forall i :: 0 <= i < |ps| ==> r[i] == types[ps[i].id]
  {
    seq(|ps|, i requires 0 <= i < |ps| => types[ps[i].id])
  }

  /** The fresh frame after `SetValue` of each of the first `n` parameters:
      on a repeated name the first binding stays. */
  function BindParameters(ps: seq<FunctionArgument>, n: nat): (f: Frame)
    requires n <= |ps|
    ensures |f| <= n
    ensures n > 0 ==> ps[0].name in f && f[ps[0].name] == TypeContainer(ToLLVM(ps[0].argType))
  {
    if n == 0 then map[]
    else
      var f := BindParameters(ps, n - 1);
      if ps[n - 1].name in f then f else f[ps[n - 1].name := TypeContainer(ToLLVM(ps[n - 1].argType))]
  }

  /** A definition at top level: its body is checked in a new root frame
      holding its parameters and its own name; afterwards the outer frame is
      back and the name is bound there. */
  function CheckFunctionDefinition(s: Stmt, st: State, names: BasicNames): (r: Result<State, CheckError>)
    requires s.FunctionDefinitionStatement? && st.env != []
    ensures StmtShape(st, r)
    decreases s, 0
  {
    if s.functionName == "main" then Failure(TypeException(FunctionNamedMain))
    else if |st.env| > 1 then Failure(TypeException(NestedFunctionDeclaration))
    else if s.async && GenericName(s.returnType, names) != "promise" then Failure(TypeException(AsyncMustReturnPromise))
    else
      var types1 := RecordParameters(st.types, s.parameters, |s.parameters|);
      var fnType := Fn(ToLLVM(s.returnType), ParameterEntries(s.parameters, types1), false);
      var bodyEnv := Bind([BindParameters(s.parameters, |s.parameters|)], s.functionName, fnType);
      var st2 :- CheckNode(s.inner, State(types1, bodyEnv), names);
      var bodyType :- Entry(st2.types, NodeIdOf(s.inner));
      if (if s.async then Struct([bodyType]) else bodyType) != ToLLVM(s.returnType) then
        Failure(TypeException(SignatureMismatch))
      else
        Success(State(st2.types[s.id := bodyType], Bind(st.env, s.functionName, fnType)))
  }

  // ---------------------------------------------------------------------
  // Nodes

  /** `Visit`: statements and expressions go to their visitors; a function
      argument gets the encoding of its declared type. */
  function CheckNode(n: Node, st: State, names: BasicNames): (r: Result<State, CheckError>)
    requires st.env != []
    ensures r.Success? ==> r.value.env != []
    decreases n, 3
  {
    match n
    case StmtNode(s) => CheckStmt(s, st, names)
    case ExprNode(e) => CheckExpr(e, st, names)
    case ArgNode(a) => Success(st.(types := st.types[a.id := ToLLVM(a.argType)]))
  }

  // ---------------------------------------------------------------------
  // Expressions

  function CheckExpr(e: Expr, st: State, names: BasicNames): (r: Result<State, CheckError>)
    requires st.env != []
    ensures ExprShape(st, r)
    decreases e, 2
  {
    match e
    case StringExpression(id, _) => Success(st.(types := st.types[id := Ptr(I8)]))
    case ArrayAccessExpression(_, _, _) => CheckArrayAccess(e, st, names)
    case NegateExpression(_, _) => CheckNegate(e, st, names)
    case AwaitExpression(_, _) => CheckAwaitExpression(e, st, names)
    case ArrayLiteralExpression(_, _) => CheckArrayLiteral(e, st, names)
    case BinOpExpression(_, _, _, _) => CheckBinOp(e, st, names)
    case BlockExpression(_, _, _) => CheckBlockExpression(e, st, names)
    case BoolExpression(id, _) => Success(st.(types := st.types[id := I1]))
    case FloatExpression(id) => Success(st.(types := st.types[id := Double]))
    case FunctionCallExpression(_, _, _, _) => CheckCall(e, st, names)
    case IntExpression(id, _) => Success(st.(types := st.types[id := I32]))
    case VariableExpression(_, _) => CheckVariable(e, st)
    // No case in the checker: no entry, no error, child not visited.
    case ChannelLoadExpression(_, _) => Success(st)
  }

  /** `ForEach(Visit)` over the first `n` expressions. */
  function CheckExprs(es: seq<Expr>, n: nat, st: State, names: BasicNames): (r: Result<State, CheckError>)
    requires n <= |es| && st.env != []
    ensures ExprShape(st, r)
    decreases es, n
  {
    if n == 0 then Success(st)
    else
      var st1 :- CheckExprs(es, n - 1, st, names);
      CheckExpr(es[n - 1], st1, names)
  }

  /** Once an expression of a list fails, the rest of the list is not
      checked: the failure is the list's. */
  lemma {:induction false} ExprsFailureSticks(es: seq<Expr>, n: nat, m: nat, st: State, names: BasicNames)
    requires n <= m <= |es| && st.env != []
    requires CheckExprs(es, n, st, names).Failure?
    ensures CheckExprs(es, m, st, names) == CheckExprs(es, n, st, names)
    decreases m
  {
    if m > n {
      ExprsFailureSticks(es, n, m - 1, st, names);
    }
  }

  function CheckArrayAccess(e: Expr, st: State, names: BasicNames): (r: Result<State, CheckError>)
    requires e.ArrayAccessExpression? && st.env != []
    ensures ExprShape(st, r)
    decreases e, 0
  {
    var st1 :- CheckExpr(e.arrayValue, st, names);
    var st2 :- CheckExpr(e.index, st1, names);
    var it :- Entry(st2.types, e.index.id);
    if Kind(it) != IntegerKind then Failure(TypeException(IndexNotNumber))
    else
      var at :- Entry(st2.types, e.arrayValue.id);
      if Kind(at) != ArrayKind then Failure(TypeException(NotAnArray))
      else Success(st2.(types := st2.types[e.id := at.elem]))
  }

  function CheckNegate(e: Expr, st: State, names: BasicNames): (r: Result<State, CheckError>)
    requires e.NegateExpression? && st.env != []
    ensures ExprShape(st, r)
    decreases e, 0
  {
    var st1 :- CheckExpr(e.operand, st, names);
    var t :- Entry(st1.types, e.operand.id);
    if t != I1 then Failure(TypeException(NegationOfNonBoolean))
    else Success(st1.(types := st1.types[e.id := I1]))
  }

  function CheckAwaitExpression(e: Expr, st: State, names: BasicNames): (r: Result<State, CheckError>)
    requires e.AwaitExpression? && st.env != []
    ensures ExprShape(st, r)
    decreases e, 0
  {
    var st1 :- CheckExpr(e.awaited, st, names);
    var t :- Entry(st1.types, e.awaited.id);
    if Kind(t) != StructKind then Failure(TypeException(AwaitOnNonPromise))
    else if |t.fields| == 0 then Failure(IndexOutOfRange)
    else Success(st1.(types := st1.types[e.id := t.fields[0]]))
  }

  /** `Items.Any(x => types[x] != t)`, which throws at the first item without
      an entry that it reaches. */
  function AnyItemDiffers(items: seq<Expr>, types: TypeMap, t: LType): (r: Result<bool, CheckError>)
    ensures r == Success(false) ==> forall i :: 0 <= i < |items| ==> items[i].id in types && types[items[i].id] == t
  {
    if items == [] then Success(false)
    else if items[0].id !in types then Failure(KeyNotFound(items[0].id))
    else if types[items[0].id] != t then Success(true)
    else
      var r := AnyItemDiffers(items[1..], types, t);
      assert r == Success(false) ==> forall i :: 1 <= i < |items| ==> items[i] == items[1..][i - 1];
      r
  }

  function CheckArrayLiteral(e: Expr, st: State, names: BasicNames): (r: Result<State, CheckError>)
    requires e.ArrayLiteralExpression? && st.env != []
    ensures ExprShape(st, r)
    decreases e, 0
  {
    if |e.items| == 0 then Failure(TypeException(EmptyArrayLiteral))
    else
      var st1 :- CheckExprs(e.items, |e.items|, st, names);
      var first :- Entry(st1.types, e.items[0].id);
      var differs :- AnyItemDiffers(e.items, st1.types, first);
      if differs then Failure(TypeException(ArrayItemsDiffer))
      else Success(st1.(types := st1.types[e.id := Arr(first, |e.items|)]))
  }

  predicate IsNumeric(t: LType)
  {
    Kind(t) == IntegerKind || Kind(t) == DoubleKind
  }

  /** The `switch` on the operation, for operands of types `lt` and `rt`: the
      type of the result, `None` for the operation without a case
      (`ArrayRange`), or the reason of the exception. */
  function OperatorType(op: BinaryOperation, lt: LType, rt: LType): (r: Result<Option<LType>, Reason>)
    ensures r.Success? ==> (r.value.None? <==> op == ArrayRange)
    ensures r.Success? && r.value.Some? ==> r.value.value == lt || r.value.value == I1
  {
    match op
    case Addition | Division | Multiplication | Subtraction =>
      if !IsNumeric(lt) then Failure(ArithmeticOnNonNumber) else Success(Some(lt))
    case Remainder =>
      if lt != I32 then Failure(RemainderOnNonInt) else Success(Some(lt))
    case LTE | LT | GTE | GT =>
      if !IsNumeric(lt) then Failure(ArithmeticOnNonNumber) else Success(Some(I1))
    case Equality | Inequality =>
      if lt != rt then Failure(EqualityOperandsDiffer)
      else if !IsNumeric(lt) then Failure(EqualityOnInvalidType)
      else Success(Some(I1))
    case LogicalAnd | LogicalOr =>
      if lt != rt then Failure(LogicalOperandsDiffer)
      else if lt != I1 then Failure(LogicalOnNonBool)
      else Success(Some(lt))
    case ArrayRange =>
      Success(None)
  }

  function CheckBinOp(e: Expr, st: State, names: BasicNames): (r: Result<State, CheckError>)
    requires e.BinOpExpression? && st.env != []
    ensures ExprShape(st, r)
    decreases e, 0
  {
    var st1 :- CheckExpr(e.left, st, names);
    var st2 :- CheckExpr(e.right, st1, names);
    var lt :- Entry(st2.types, e.left.id);
    var rt :- Entry(st2.types, e.right.id);
    if lt != rt then Failure(TypeException(OperandsDiffer(e.operation)))
    else
      // The operands were compared above: the comparisons the equality and
      // logical cases repeat never fail here.
      match OperatorType(e.operation, lt, rt)
      case Failure(reason) => Failure(TypeException(reason))
      case Success(None) => Success(st2)
      case Success(Some(t)) => Success(st2.(types := st2.types[e.id := t]))
  }

  /** A block expression is checked in a new frame, which is dropped
      afterwards. */
  function CheckBlockExpression(e: Expr, st: State, names: BasicNames): (r: Result<State, CheckError>)
    requires e.BlockExpression? && st.env != []
    ensures ExprShape(st, r)
    decreases e, 1
  {
    var inner :- CheckBlockExpressionBody(e, State(st.types, [map[]] + st.env), names);
    Success(State(inner.types, inner.env[1..]))
  }

  /** A block expression inside its frame: the statements, then the result
      expression, whose type is the block's. */
  function CheckBlockExpressionBody(e: Expr, st: State, names: BasicNames): (r: Result<State, CheckError>)
    requires e.BlockExpression? && st.env != []
    ensures StmtShape(st, r)
    decreases e, 0
  {
    var inner :- CheckStmts(e.statements, |e.statements|, st, names);
    var st2 :- CheckExpr(e.returnExpression, inner, names);
    var t :- Entry(st2.types, e.returnExpression.id);
    Success(st2.(types := st2.types[e.id := t]))
  }

  /** The `for` loop over the parameters of a non-vararg callee, from
      position `i` on. */
  function CheckArgumentTypes(callee: string, params: seq<LType>, args: seq<Expr>, types: TypeMap, i: nat): (r: Result<(), CheckError>)
    requires |params| == |args| && i <= |params|
    ensures r.Success? ==> forall j :: i <= j < |args| ==> args[j].id in types && types[args[j].id] == params[j]
    decreases |params| - i
  {
    if i == |params| then Success(())
    else if args[i].id !in types then Failure(KeyNotFound(args[i].id))
    else if params[i] != types[args[i].id] then Failure(TypeException(ArgumentTypeMismatch(i + 1, callee)))
    else CheckArgumentTypes(callee, params, args, types, i + 1)
  }

  function CheckCall(e: Expr, st: State, names: BasicNames): (r: Result<State, CheckError>)
    requires e.FunctionCallExpression? && st.env != []
    ensures ExprShape(st, r)
    decreases e, 0
  {
    var found := Scopes.LookupIn(st.env, e.functionName);
    if found.None? then Failure(TypeException(NonexistentFunction))
    else
      var fnc := found.value.Type;
      if Kind(fnc) != FunctionKind then Failure(TypeException(CallOfNonFunction))
      else if fnc.vararg then Success(st.(types := st.types[e.id := fnc.ret]))
      else
        var st1 :- CheckExprs(e.arguments, |e.arguments|, st, names);
        if |fnc.params| != |e.arguments| then Failure(TypeException(ArgumentCountMismatch))
        else
          var _ :- CheckArgumentTypes(e.functionName, fnc.params, e.arguments, st1.types, 0);
          Success(st1.(types := st1.types[e.id := fnc.ret]))
  }

  function CheckVariable(e: Expr, st: State): (r: Result<State, CheckError>)
    requires e.VariableExpression?
    ensures ExprShape(st, r)
  {
    var found := Scopes.LookupIn(st.env, e.variable);
    if found.None? then Failure(TypeException(UndefinedVariable(e.variable)))
    else if Kind(found.value.Type) == FunctionKind then Failure(TypeException(FunctionUsedAsVariable))
    else Success(st.(types := st.types[e.id := found.value.Type]))
  }

  // ---------------------------------------------------------------------
  // The whole pass

  /** `new TypeChecker(root)`: the top-level statements in order, in one root
      frame, starting from an empty table. */
  function CheckProgram(root: TwiceChunk, names: BasicNames): (r: Result<TypeMap, CheckError>)
    ensures root.statements == [] ==> r == Success(map[])
  {
    var st :- CheckStmts(root.statements, |root.statements|, State(map[], [map[]]), names);
    Success(st.types)
  }
}
