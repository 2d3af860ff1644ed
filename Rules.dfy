/** The typing rules the checker enforces.  Each is stated over the table
    right after the node's own check; `ProgramEntries` carries them to the
    table the whole pass returns.

    Each lemma takes a node whose ids are distinct (`UniqueStmt`,
    `UniqueExpr`: the parser allocates a new object per node) and says what a
    successful check has recorded for it and its children, and which error a
    failed rule reports. */
module Rules {
  import opened Outcomes
  import opened Llvm
  import opened SurfaceTypes
  import opened Ast
  import opened Typing
  import opened Framing
  import opened Ids
  import Scopes

  // ---------------------------------------------------------------------
  // Framing

  /** An entry outside what a step may write is as it was. */
  lemma Untouched(a: TypeMap, b: TypeMap, ids: multiset<NodeId>, k: NodeId)
    requires TypesFramed(a, b, ids) && k !in ids
    ensures k in b <==> k in a
    ensures k in a ==> b[k] == a[k]
  {
  }

  // ---------------------------------------------------------------------
  // Statements

  /** A block is typed in a frame of its own, gone afterwards; its type is
      the one type shared by the children that have an entry, or `void`
      when none has one. */
  lemma BlockStatementRule(s: Stmt, st: State, names: BasicNames)
    requires s.BlockStatement? && st.env != [] && UniqueStmt(s)
    ensures var r := CheckBlockStatement(s, st, names);
      r.Success? ==>
        && r.value.env == st.env
        && s.id in r.value.types
        && (forall i :: 0 <= i < |s.statements| && s.statements[i].id in r.value.types ==>
              r.value.types[s.statements[i].id] == r.value.types[s.id])
        && ((forall i :: 0 <= i < |s.statements| ==> s.statements[i].id !in r.value.types) ==>
              r.value.types[s.id] == Void)
    ensures var inner := CheckStmts(s.statements, |s.statements|, State(st.types, [map[]] + st.env), names);
      inner.Success? &&
      (exists i, j :: 0 <= i < |s.statements| && 0 <= j < |s.statements| &&
         s.statements[i].id in inner.value.types && s.statements[j].id in inner.value.types &&
         inner.value.types[s.statements[i].id] != inner.value.types[s.statements[j].id]) ==>
        CheckBlockStatement(s, st, names) == Failure(TypeException(BlockTypesDiffer))
  {
    var ss := s.statements;
    var inner := CheckStmts(ss, |ss|, State(st.types, [map[]] + st.env), names);
    if inner.Success? {
      EntryTypesDiffer(ss, inner.value.types);
    }
    if CheckBlockStatement(s, st, names).Success? {
      BlockResult(s, st, names);
      EntryTypesSame(ss, inner.value.types, EntryTypes(ss, inner.value.types));
      Apart(multiset{s.id}, ChildIdsS(s), s.id);
      forall i | 0 <= i < |ss|
        ensures ss[i].id != s.id
      {
        IdsSsHas(ss, |ss|, i);
      }
    }
  }

  /** The steps of a successful block. */
  lemma BlockResult(s: Stmt, st: State, names: BasicNames)
    requires s.BlockStatement? && st.env != [] && CheckBlockStatement(s, st, names).Success?
    ensures var inner := CheckStmts(s.statements, |s.statements|, State(st.types, [map[]] + st.env), names);
      && inner.Success?
      && var rets := EntryTypes(s.statements, inner.value.types);
      && (forall i :: 0 <= i < |rets| ==> rets[i] == rets[0])
      && var r := CheckBlockStatement(s, st, names).value;
      && r.types == inner.value.types[s.id := if |rets| > 0 then rets[0] else Void]
      && r.env == st.env
  {
  }

  /** Entries of one type: every child entry is the first one, and there is
      none when the list is empty. */
  lemma EntryTypesSame(ss: seq<Stmt>, types: TypeMap, rets: seq<LType>)
    requires rets == EntryTypes(ss, types) && forall i :: 0 <= i < |rets| ==> rets[i] == rets[0]
    ensures && (forall i :: 0 <= i < |ss| && ss[i].id in types ==> |rets| > 0 && types[ss[i].id] == rets[0])
      && (|rets| > 0 ==> exists i :: 0 <= i < |ss| && ss[i].id in types)
  {
    forall i | 0 <= i < |ss| && ss[i].id in types
      ensures |rets| > 0 && types[ss[i].id] == rets[0]
    {
      assert types[ss[i].id] in rets;
      var k :| 0 <= k < |rets| && rets[k] == types[ss[i].id];
      assert rets[k] == rets[0];
    }
    if |rets| > 0 {
      assert rets[0] in rets;
    }
  }

  /** Two children with different entries make the entries differ from the
      first one somewhere. */
  lemma EntryTypesDiffer(ss: seq<Stmt>, types: TypeMap)
    ensures var rets := EntryTypes(ss, types);
      (exists i, j :: 0 <= i < |ss| && 0 <= j < |ss| && ss[i].id in types && ss[j].id in types &&
         types[ss[i].id] != types[ss[j].id]) ==>
        |rets| > 0 && exists k :: 0 <= k < |rets| && rets[k] != rets[0]
  {
    var rets := EntryTypes(ss, types);
    if exists i, j :: 0 <= i < |ss| && 0 <= j < |ss| && ss[i].id in types && ss[j].id in types &&
         types[ss[i].id] != types[ss[j].id] {
      var i, j :| 0 <= i < |ss| && 0 <= j < |ss| && ss[i].id in types && ss[j].id in types &&
        types[ss[i].id] != types[ss[j].id];
      assert types[ss[i].id] in rets;
      assert types[ss[j].id] in rets;
    }
  }

  /** A declaration binds its name in the current frame to the type of its
      value, unless that frame binds the name already; it gets no entry of
      its own. */
  lemma DeclarationRule(s: Stmt, st: State, names: BasicNames)
    requires s.DeclarationStatement? && st.env != [] && UniqueStmt(s)
    ensures var r := CheckDeclaration(s, st, names);
      r.Success? ==>
        && s.value.id in r.value.types
        && s.name !in st.env[0]
        && r.value.env == Bind(st.env, s.name, r.value.types[s.value.id])
        && Scopes.LookupIn(r.value.env, s.name) == Some(TypeContainer(r.value.types[s.value.id]))
        && (s.id in r.value.types <==> s.id in st.types)
    ensures var r1 := CheckExpr(s.value, st, names);
      r1.Success? && s.value.id in r1.value.types && s.name in st.env[0] ==>
        CheckDeclaration(s, st, names) == Failure(TypeException(VariableAlreadyDefined))
  {
    if CheckDeclaration(s, st, names).Success? {
      ExprFrame(s.value, st, names);
      var st1 := CheckExpr(s.value, st, names).value;
      Apart(multiset{s.id}, ChildIdsS(s), s.id);
      Untouched(st.types, st1.types, IdsE(s.value), s.id);
      Scopes.DefineThenLookup(st.env, s.name, TypeContainer(st1.types[s.value.id]));
    }
  }

  /** An assignment needs a name that resolves to a non-function type equal
      to the type of the value; it changes no binding and gets no entry. */
  lemma AssignmentRule(s: Stmt, st: State, names: BasicNames)
    requires s.AssignmentStatement? && st.env != [] && UniqueStmt(s)
    ensures Scopes.LookupIn(st.env, s.name).None? ==>
      CheckAssignment(s, st, names) == Failure(TypeException(UndefinedVariable(s.name)))
    ensures var found := Scopes.LookupIn(st.env, s.name);
      found.Some? && Kind(found.value.Type) == FunctionKind ==>
        CheckAssignment(s, st, names) == Failure(TypeException(FunctionUsedAsVariable))
    ensures var r := CheckAssignment(s, st, names);
      r.Success? ==>
        && Scopes.LookupIn(st.env, s.name).Some?
        && var bound := Scopes.LookupIn(st.env, s.name).value.Type;
        && Kind(bound) != FunctionKind
        && s.value.id in r.value.types && r.value.types[s.value.id] == bound
        && r.value.env == st.env
        && (s.id in r.value.types <==> s.id in st.types)
    ensures var found := Scopes.LookupIn(st.env, s.name);
      var r1 := CheckExpr(s.value, st, names);
      found.Some? && Kind(found.value.Type) != FunctionKind && r1.Success? &&
      s.value.id in r1.value.types && r1.value.types[s.value.id] != found.value.Type ==>
        CheckAssignment(s, st, names) == Failure(TypeException(AssignmentMismatch(s.name)))
  {
    if CheckAssignment(s, st, names).Success? {
      ExprFrame(s.value, st, names);
      var st1 := CheckExpr(s.value, st, names).value;
      Apart(multiset{s.id}, ChildIdsS(s), s.id);
      Untouched(st.types, st1.types, IdsE(s.value), s.id);
    }
  }

  /** The condition of an `if` is exactly `i1`; with an `else`, both
      branches have the same type, a branch without an entry counting as
      `void`; the `if` has the type of its `then` branch. */
  lemma IfRule(s: Stmt, st: State, names: BasicNames)
    requires s.IfStatement? && st.env != [] && UniqueStmt(s)
    ensures var r := CheckIf(s, st, names);
      r.Success? ==>
        && s.condition.id in r.value.types && r.value.types[s.condition.id] == I1
        && s.id in r.value.types
        && r.value.types[s.id] == TypeOrVoid(r.value.types, s.thenStatement.id)
        && (s.elseStatement.Some? ==> TypeOrVoid(r.value.types, s.elseStatement.value.id) == r.value.types[s.id])
    ensures var r1 := CheckExpr(s.condition, st, names);
      r1.Success? && s.condition.id in r1.value.types && r1.value.types[s.condition.id] != I1 ==>
        CheckIf(s, st, names) == Failure(TypeException(NonBooleanIfCondition))
    ensures var r1 := CheckExpr(s.condition, st, names);
      r1.Success? && s.condition.id in r1.value.types && r1.value.types[s.condition.id] == I1 ==>
      var r2 := CheckStmt(s.thenStatement, r1.value, names);
      r2.Success? && s.elseStatement.Some? ==>
      var r3 := CheckStmt(s.elseStatement.value, r2.value, names);
      r3.Success? && TypeOrVoid(r3.value.types, s.elseStatement.value.id) != TypeOrVoid(r2.value.types, s.thenStatement.id) ==>
        CheckIf(s, st, names) == Failure(TypeException(BranchTypesDiffer))
  {
    if CheckIf(s, st, names).Success? {
      IfResult(s, st, names);
      var st1 := CheckExpr(s.condition, st, names).value;
      var st2 := CheckStmt(s.thenStatement, st1, names).value;
      var c, t := s.condition.id, s.thenStatement.id;
      StmtFrame(s.thenStatement, st1, names);
      IfIds(s);
      Untouched(st1.types, st2.types, IdsS(s.thenStatement), c);
      if s.elseStatement.Some? {
        var el := s.elseStatement.value;
        var st3 := CheckStmt(el, st2, names).value;
        StmtFrame(el, st2, names);
        Untouched(st2.types, st3.types, IdsS(el), c);
        Untouched(st2.types, st3.types, IdsS(el), t);
      }
    }
  }

  /** The steps of a successful `if`. */
  lemma IfResult(s: Stmt, st: State, names: BasicNames)
    requires s.IfStatement? && st.env != [] && CheckIf(s, st, names).Success?
    ensures CheckExpr(s.condition, st, names).Success?
    ensures var st1 := CheckExpr(s.condition, st, names).value;
      && s.condition.id in st1.types && st1.types[s.condition.id] == I1
      && CheckStmt(s.thenStatement, st1, names).Success?
      && var st2 := CheckStmt(s.thenStatement, st1, names).value;
      var typeThen := TypeOrVoid(st2.types, s.thenStatement.id);
      var r := CheckIf(s, st, names).value;
      if s.elseStatement.Some? then
        && CheckStmt(s.elseStatement.value, st2, names).Success?
        && var st3 := CheckStmt(s.elseStatement.value, st2, names).value;
        && TypeOrVoid(st3.types, s.elseStatement.value.id) == typeThen
        && r.types == st3.types[s.id := typeThen]
      else
        r.types == st2.types[s.id := typeThen]
  {
  }

  /** The condition of a `while` is exactly `i1`; the loop has the type of
      its body, or `void`. */
  lemma WhileRule(s: Stmt, st: State, names: BasicNames)
    requires s.WhileStatement? && st.env != [] && UniqueStmt(s)
    ensures var r := CheckWhile(s, st, names);
      r.Success? ==>
        && s.condition.id in r.value.types && r.value.types[s.condition.id] == I1
        && s.id in r.value.types && r.value.types[s.id] == TypeOrVoid(r.value.types, s.body.id)
    ensures var r1 := CheckExpr(s.condition, st, names);
      r1.Success? && s.condition.id in r1.value.types && r1.value.types[s.condition.id] != I1 ==>
        CheckWhile(s, st, names) == Failure(TypeException(NonBooleanWhileCondition))
  {
    if CheckWhile(s, st, names).Success? {
      WhileLastStep(s, st, names);
      var st1 := CheckExpr(s.condition, st, names).value;
      var c, b := s.condition.id, s.body.id;
      StmtFrame(s.body, st1, names);
      WhileIds(s);
      Untouched(st1.types, CheckStmt(s.body, st1, names).value.types, IdsS(s.body), c);
    }
  }

  /** A `return` has the type of its value, or `void` without one. */
  lemma ReturnRule(s: Stmt, st: State, names: BasicNames)
    requires s.ReturnStatement? && st.env != [] && UniqueStmt(s)
    ensures var r := CheckReturn(s, st, names);
      r.Success? ==>
        && s.id in r.value.types
        && r.value.types[s.id] == (if s.result.None? then Void else r.value.types[s.result.value.id])
        && r.value.env == st.env
  {
    if CheckReturn(s, st, names).Success? && s.result.Some? {
      Apart(multiset{s.id}, ChildIdsS(s), s.id);
    }
  }

  /** An awaited statement expression must have a struct type (a promise);
      the statement gets no entry. */
  lemma AwaitStatementRule(s: Stmt, st: State, names: BasicNames)
    requires s.AwaitStatement? && st.env != [] && UniqueStmt(s)
    ensures var r := CheckAwaitStatement(s, st, names);
      r.Success? ==>
        && s.awaited.id in r.value.types && r.value.types[s.awaited.id].Struct?
        && (s.id in r.value.types <==> s.id in st.types)
    ensures var r1 := CheckExpr(s.awaited, st, names);
      r1.Success? && s.awaited.id in r1.value.types && !r1.value.types[s.awaited.id].Struct? ==>
        CheckAwaitStatement(s, st, names) == Failure(TypeException(AwaitOnNonPromise))
  {
    if CheckAwaitStatement(s, st, names).Success? {
      ExprFrame(s.awaited, st, names);
      Apart(multiset{s.id}, ChildIdsS(s), s.id);
      Untouched(st.types, CheckExpr(s.awaited, st, names).value.types, IdsE(s.awaited), s.id);
    }
  }

  // ---------------------------------------------------------------------
  // Expressions

  /** A variable read needs a name that resolves to a non-function type, and
      has that type. */
  lemma VariableRule(e: Expr, st: State)
    requires e.VariableExpression?
    ensures Scopes.LookupIn(st.env, e.variable).None? ==>
      CheckVariable(e, st) == Failure(TypeException(UndefinedVariable(e.variable)))
    ensures var found := Scopes.LookupIn(st.env, e.variable);
      found.Some? && found.value.Type.Fn? ==>
        CheckVariable(e, st) == Failure(TypeException(FunctionUsedAsVariable))
    ensures var r := CheckVariable(e, st);
      r.Success? ==>
        && Scopes.LookupIn(st.env, e.variable).Some?
        && var bound := Scopes.LookupIn(st.env, e.variable).value.Type;
        && !bound.Fn?
        && e.id in r.value.types && r.value.types[e.id] == bound
  {
  }

  /** A negation needs an `i1` operand and has type `i1`. */
  lemma NegateRule(e: Expr, st: State, names: BasicNames)
    requires e.NegateExpression? && st.env != [] && UniqueExpr(e)
    ensures var r := CheckNegate(e, st, names);
      r.Success? ==>
        && e.operand.id in r.value.types && r.value.types[e.operand.id] == I1
        && e.id in r.value.types && r.value.types[e.id] == I1
    ensures var r1 := CheckExpr(e.operand, st, names);
      r1.Success? && e.operand.id in r1.value.types && r1.value.types[e.operand.id] != I1 ==>
        CheckNegate(e, st, names) == Failure(TypeException(NegationOfNonBoolean))
  {
    if CheckNegate(e, st, names).Success? {
      Apart(multiset{e.id}, ChildIdsE(e), e.id);
    }
  }

  /** An awaited expression needs a struct type (a promise); the `await` has
      the type of the struct's first field, and a struct without fields
      throws. */
  lemma AwaitExpressionRule(e: Expr, st: State, names: BasicNames)
    requires e.AwaitExpression? && st.env != [] && UniqueExpr(e)
    ensures var r := CheckAwaitExpression(e, st, names);
      r.Success? ==>
        && e.awaited.id in r.value.types
        && var t := r.value.types[e.awaited.id];
        && t.Struct? && |t.fields| > 0
        && e.id in r.value.types && r.value.types[e.id] == t.fields[0]
    ensures var r1 := CheckExpr(e.awaited, st, names);
      r1.Success? && e.awaited.id in r1.value.types ==>
        var t := r1.value.types[e.awaited.id];
        && (!t.Struct? ==> CheckAwaitExpression(e, st, names) == Failure(TypeException(AwaitOnNonPromise)))
        && (t == Struct([]) ==> CheckAwaitExpression(e, st, names) == Failure(IndexOutOfRange))
  {
    if CheckAwaitExpression(e, st, names).Success? {
      Apart(multiset{e.id}, ChildIdsE(e), e.id);
      assert e.awaited.id in IdsE(e.awaited);
    }
  }

  /** An array access needs an integer index and an array target, and has
      the element type of the target. */
  lemma ArrayAccessRule(e: Expr, st: State, names: BasicNames)
    requires e.ArrayAccessExpression? && st.env != [] && UniqueExpr(e)
    ensures var r := CheckArrayAccess(e, st, names);
      r.Success? ==>
        && e.index.id in r.value.types && Kind(r.value.types[e.index.id]) == IntegerKind
        && e.arrayValue.id in r.value.types && r.value.types[e.arrayValue.id].Arr?
        && e.id in r.value.types && r.value.types[e.id] == r.value.types[e.arrayValue.id].elem
    ensures var r1 := CheckExpr(e.arrayValue, st, names);
      r1.Success? ==>
        var r2 := CheckExpr(e.index, r1.value, names);
        r2.Success? && e.index.id in r2.value.types && e.arrayValue.id in r2.value.types ==>
          var it, at := r2.value.types[e.index.id], r2.value.types[e.arrayValue.id];
          && (Kind(it) != IntegerKind ==> CheckArrayAccess(e, st, names) == Failure(TypeException(IndexNotNumber)))
          && (Kind(it) == IntegerKind && !at.Arr? ==> CheckArrayAccess(e, st, names) == Failure(TypeException(NotAnArray)))
  {
    if CheckArrayAccess(e, st, names).Success? {
      Apart(multiset{e.id}, ChildIdsE(e), e.id);
      assert e.arrayValue.id in IdsE(e.arrayValue) && e.index.id in IdsE(e.index);
    }
  }

  /** The two operands have the same type; the operator table decides what
      that type must be and the type of the result; `..` gets no entry. */
  lemma BinOpRule(e: Expr, st: State, names: BasicNames)
    requires e.BinOpExpression? && st.env != [] && UniqueExpr(e)
    ensures var r := CheckBinOp(e, st, names);
      r.Success? ==>
        && e.left.id in r.value.types && e.right.id in r.value.types
        && var t := r.value.types[e.left.id];
        && r.value.types[e.right.id] == t
        && match OperatorType(e.operation, t, t)
           case Success(Some(u)) => e.id in r.value.types && r.value.types[e.id] == u
           case Success(None) => (e.id in r.value.types <==> e.id in st.types)
           case Failure(_) => false
    ensures var r1 := CheckExpr(e.left, st, names);
      r1.Success? ==>
        var r2 := CheckExpr(e.right, r1.value, names);
        r2.Success? && e.left.id in r2.value.types && e.right.id in r2.value.types ==>
          var lt, rt := r2.value.types[e.left.id], r2.value.types[e.right.id];
          && (lt != rt ==> CheckBinOp(e, st, names) == Failure(TypeException(OperandsDiffer(e.operation))))
          && (lt == rt && OperatorType(e.operation, lt, lt).Failure? ==>
                CheckBinOp(e, st, names) == Failure(TypeException(OperatorType(e.operation, lt, lt).error)))
  {
    if CheckBinOp(e, st, names).Success? {
      BinOpLastStep(e, st, names);
      var st1 := CheckExpr(e.left, st, names).value;
      var st2 := CheckExpr(e.right, st1, names).value;
      BinOpIds(e);
      ExprFrame(e.left, st, names);
      ExprFrame(e.right, st1, names);
      Untouched(st.types, st1.types, IdsE(e.left), e.id);
      Untouched(st1.types, st2.types, IdsE(e.right), e.id);
    }
  }

  /** The operator table for two operands of one type `t`, the only case in
      which the checker consults it: arithmetic takes any number, `i1`
      included, and keeps its type; `%` takes `i32` only; comparisons and
      equality take numbers and give `i1`; `and`/`or` take `i1`; `..` has no
      result.  The table's own operand comparisons never fail. */
  lemma OperatorTable(op: BinaryOperation, t: LType)
    ensures IsNumeric(t) <==> t == I1 || t == I8 || t == I32 || t == Double
    ensures op in {Addition, Subtraction, Multiplication, Division} ==>
      (OperatorType(op, t, t).Success? <==> IsNumeric(t)) &&
      (IsNumeric(t) ==> OperatorType(op, t, t).value == Some(t))
    ensures op == Remainder ==>
      (OperatorType(op, t, t).Success? <==> t == I32) &&
      (t == I32 ==> OperatorType(op, t, t).value == Some(I32))
    ensures op in {LT, LTE, GT, GTE, Equality, Inequality} ==>
      (OperatorType(op, t, t).Success? <==> IsNumeric(t)) &&
      (IsNumeric(t) ==> OperatorType(op, t, t).value == Some(I1))
    ensures op in {LogicalAnd, LogicalOr} ==>
      (OperatorType(op, t, t).Success? <==> t == I1) &&
      (t == I1 ==> OperatorType(op, t, t).value == Some(I1))
    ensures OperatorType(op, t, t) == Success(None) <==> op == ArrayRange
    ensures OperatorType(op, t, t) != Failure(EqualityOperandsDiffer)
    ensures OperatorType(op, t, t) != Failure(LogicalOperandsDiffer)
  {
  }

  /** `Items.Any(x => types[x] != t)` over items that all have an entry. */
  lemma {:induction false} AnyItemDiffersFinds(items: seq<Expr>, types: TypeMap, t: LType)
    requires forall i :: 0 <= i < |items| ==> items[i].id in types
    ensures AnyItemDiffers(items, types, t) == Success(exists i :: 0 <= i < |items| && types[items[i].id] != t)
  {
    if items != [] && types[items[0].id] == t {
      AnyItemDiffersFinds(items[1..], types, t);
      assert forall i :: 1 <= i < |items| ==> items[i] == items[1..][i - 1];
      if exists i :: 0 <= i < |items| && types[items[i].id] != t {
        var i :| 0 <= i < |items| && types[items[i].id] != t;
        assert items[1..][i - 1] == items[i];
      }
    }
  }

  /** An array literal needs at least one item and items of one type; its
      type is an array of that type with as many elements as items. */
  lemma ArrayLiteralRule(e: Expr, st: State, names: BasicNames)
    requires e.ArrayLiteralExpression? && st.env != [] && UniqueExpr(e)
    ensures |e.items| == 0 ==> CheckArrayLiteral(e, st, names) == Failure(TypeException(EmptyArrayLiteral))
    ensures var r := CheckArrayLiteral(e, st, names);
      r.Success? ==>
        && |e.items| > 0
        && e.items[0].id in r.value.types
        && (forall i :: 0 <= i < |e.items| ==>
              e.items[i].id in r.value.types && r.value.types[e.items[i].id] == r.value.types[e.items[0].id])
        && e.id in r.value.types && r.value.types[e.id] == Arr(r.value.types[e.items[0].id], |e.items|)
    ensures var r1 := CheckExprs(e.items, |e.items|, st, names);
      && |e.items| > 0 && r1.Success?
      && (forall i :: 0 <= i < |e.items| ==> e.items[i].id in r1.value.types)
      && (exists i :: 0 <= i < |e.items| && r1.value.types[e.items[i].id] != r1.value.types[e.items[0].id])
      ==> CheckArrayLiteral(e, st, names) == Failure(TypeException(ArrayItemsDiffer))
  {
    var r1 := CheckExprs(e.items, |e.items|, st, names);
    if |e.items| > 0 && r1.Success? && forall i :: 0 <= i < |e.items| ==> e.items[i].id in r1.value.types {
      AnyItemDiffersFinds(e.items, r1.value.types, r1.value.types[e.items[0].id]);
    }
    if CheckArrayLiteral(e, st, names).Success? {
      Apart(multiset{e.id}, ChildIdsE(e), e.id);
      forall i | 0 <= i < |e.items|
        ensures e.items[i].id != e.id
      {
        IdsEsHas(e.items, |e.items|, i);
      }
    }
  }

  /** The argument check of a non-vararg call reports the first position,
      counted from one, whose argument type is not the parameter type. */
  lemma {:induction false} ArgumentTypesFirstMismatch(callee: string, params: seq<LType>, args: seq<Expr>, types: TypeMap, i: nat, j: nat)
    requires |params| == |args| && i <= j < |params|
    requires forall k :: i <= k <= j ==> args[k].id in types
    requires forall k :: i <= k < j ==> types[args[k].id] == params[k]
    requires types[args[j].id] != params[j]
    ensures CheckArgumentTypes(callee, params, args, types, i) == Failure(TypeException(ArgumentTypeMismatch(j + 1, callee)))
    decreases j - i
  {
    if i < j {
      ArgumentTypesFirstMismatch(callee, params, args, types, i + 1, j);
    }
  }

  /** A call needs a callee bound to a function type.  A vararg callee gives
      its return type with the arguments neither visited nor checked;
      otherwise the arguments must match the parameters in number and, one by
      one, exactly in type. */
  lemma CallRule(e: Expr, st: State, names: BasicNames)
    requires e.FunctionCallExpression? && st.env != [] && UniqueExpr(e)
    ensures Scopes.LookupIn(st.env, e.functionName).None? ==>
      CheckCall(e, st, names) == Failure(TypeException(NonexistentFunction))
    ensures var found := Scopes.LookupIn(st.env, e.functionName);
      found.Some? && !found.value.Type.Fn? ==>
        CheckCall(e, st, names) == Failure(TypeException(CallOfNonFunction))
    ensures var found := Scopes.LookupIn(st.env, e.functionName);
      found.Some? && found.value.Type.Fn? && found.value.Type.vararg ==>
        CheckCall(e, st, names) == Success(st.(types := st.types[e.id := found.value.Type.ret]))
    ensures var found := Scopes.LookupIn(st.env, e.functionName);
      var r1 := CheckExprs(e.arguments, |e.arguments|, st, names);
      found.Some? && found.value.Type.Fn? && !found.value.Type.vararg && r1.Success? &&
      |found.value.Type.params| != |e.arguments| ==>
        CheckCall(e, st, names) == Failure(TypeException(ArgumentCountMismatch))
    ensures var r := CheckCall(e, st, names);
      r.Success? ==>
        && Scopes.LookupIn(st.env, e.functionName).Some?
        && var fnc := Scopes.LookupIn(st.env, e.functionName).value.Type;
        && fnc.Fn?
        && e.id in r.value.types && r.value.types[e.id] == fnc.ret
        && (!fnc.vararg ==>
              && |fnc.params| == |e.arguments|
              && forall j :: 0 <= j < |e.arguments| ==>
                   e.arguments[j].id in r.value.types && r.value.types[e.arguments[j].id] == fnc.params[j])
  {
    var found := Scopes.LookupIn(st.env, e.functionName);
    if CheckCall(e, st, names).Success? && !found.value.Type.vararg {
      Apart(multiset{e.id}, ChildIdsE(e), e.id);
      forall j | 0 <= j < |e.arguments|
        ensures e.arguments[j].id != e.id
      {
        IdsEsHas(e.arguments, |e.arguments|, j);
      }
    }
  }

  /** A block expression has the type of its result expression; the
      bindings made inside it are gone afterwards. */
  lemma BlockExpressionRule(e: Expr, st: State, names: BasicNames)
    requires e.BlockExpression? && st.env != [] && UniqueExpr(e)
    ensures var r := CheckBlockExpression(e, st, names);
      r.Success? ==>
        && r.value.env == st.env
        && e.returnExpression.id in r.value.types
        && e.id in r.value.types && r.value.types[e.id] == r.value.types[e.returnExpression.id]
  {
    if CheckBlockExpression(e, st, names).Success? {
      Apart(multiset{e.id}, ChildIdsE(e), e.id);
    }
  }

  // ---------------------------------------------------------------------
  // Declarations of functions

  /** An extern must be at top level and declare a function type; it gets
      the encoding of that type with its vararg flag, and its name is bound
      to it unless the frame binds the name already. */
  lemma ExternRule(s: Stmt, st: State, names: BasicNames)
    requires s.ExternFunctionStatement? && st.env != []
    ensures |st.env| > 1 ==> CheckExtern(s, st, names) == Failure(TypeException(NestedFunctionDeclaration))
    ensures |st.env| == 1 && GenericName(s.functionType, names) != "function" ==>
      CheckExtern(s, st, names) == Failure(TypeException(ExternNotFunction))
    ensures var r := CheckExtern(s, st, names);
      r.Success? ==>
        && |st.env| == 1
        && s.id in r.value.types && r.value.types[s.id] == ToLLVM(s.functionType, s.vararg)
        && (s.functionName !in st.env[0] ==>
              Scopes.LookupIn(r.value.env, s.functionName) == Some(TypeContainer(r.value.types[s.id])))
        && (s.functionName in st.env[0] ==> r.value.env == st.env)
        && (DistinctFromGenerics(names) ==> r.value.types[s.id].Fn? && r.value.types[s.id].vararg == s.vararg)
  {
    if CheckExtern(s, st, names).Success? && DistinctFromGenerics(names) {
      GenericNameRecognises(s.functionType, names);
    }
  }

  /** `ArgumentTypes` of a definition's parameters. */
  function ParameterTypes(ps: seq<FunctionArgument>): (ts: seq<TypeNode>)
    ensures |ts| == |ps| && forall i :: 0 <= i < |ps| ==> ts[i] == ps[i].argType
  {
    seq(|ps|, i requires 0 <= i < |ps| => ps[i].argType)
  }

  /** The function type a definition declares: its return type over the
      types of its parameters. */
  function DeclaredType(s: Stmt): LType
    requires s.FunctionDefinitionStatement?
  {
    Fn(ToLLVM(s.returnType), ToLLVMAll(ParameterTypes(s.parameters)), false)
  }

  /** The frame a definition's body is checked in. */
  function BodyEnv(s: Stmt): Env
    requires s.FunctionDefinitionStatement?
  {
    Bind([BindParameters(s.parameters, |s.parameters|)], s.functionName, DeclaredType(s))
  }

  /** Binding the parameters one by one: the frame holds exactly their
      names. */
  lemma {:induction false} BindParametersKeys(ps: seq<FunctionArgument>, n: nat)
    requires n <= |ps|
    ensures forall x :: x in BindParameters(ps, n) <==> exists i :: 0 <= i < n && ps[i].name == x
  {
    if n > 0 {
      BindParametersKeys(ps, n - 1);
    }
  }

  /** A repeated parameter name keeps the type of its first parameter. */
  lemma {:induction false} BindParametersFirstWins(ps: seq<FunctionArgument>, n: nat, i: nat)
    requires i < n <= |ps| && forall j :: 0 <= j < i ==> ps[j].name != ps[i].name
    ensures ps[i].name in BindParameters(ps, n)
    ensures BindParameters(ps, n)[ps[i].name] == TypeContainer(ToLLVM(ps[i].argType))
    decreases n
  {
    if i < n - 1 {
      BindParametersFirstWins(ps, n - 1, i);
    } else {
      BindParametersKeys(ps, n - 1);
    }
  }

  /** A body is checked in one root frame, so nothing of the enclosing scope
      is visible there; the frame binds the parameters' names and the
      function's own name, and nothing else. */
  lemma BodyFrameKeys(s: Stmt)
    requires s.FunctionDefinitionStatement?
    ensures |BodyEnv(s)| == 1
    ensures forall x :: x in BodyEnv(s)[0] <==>
      x == s.functionName || exists i :: 0 <= i < |s.parameters| && s.parameters[i].name == x
  {
    BindParametersKeys(s.parameters, |s.parameters|);
  }

  /** In a body, each parameter resolves to its declared type; of a
      repeated name, the first parameter wins. */
  lemma BodyFrameParameters(s: Stmt)
    requires s.FunctionDefinitionStatement?
    ensures forall i :: 0 <= i < |s.parameters| && (forall j :: 0 <= j < i ==> s.parameters[j].name != s.parameters[i].name) ==>
      Scopes.LookupIn(BodyEnv(s), s.parameters[i].name) == Some(TypeContainer(ToLLVM(s.parameters[i].argType)))
  {
    var ps := s.parameters;
    forall i | 0 <= i < |ps| && (forall j :: 0 <= j < i ==> ps[j].name != ps[i].name)
      ensures Scopes.LookupIn(BodyEnv(s), ps[i].name) == Some(TypeContainer(ToLLVM(ps[i].argType)))
    {
      BindParametersFirstWins(ps, |ps|, i);
    }
  }

  /** In a body, the function's own name resolves to its declared type
      unless a parameter has that name. */
  lemma BodyFrameOwnName(s: Stmt)
    requires s.FunctionDefinitionStatement?
    ensures (forall i :: 0 <= i < |s.parameters| ==> s.parameters[i].name != s.functionName) ==>
      Scopes.LookupIn(BodyEnv(s), s.functionName) == Some(TypeContainer(DeclaredType(s)))
  {
    BindParametersKeys(s.parameters, |s.parameters|);
  }

  /** `Arguments.ForEach(Visit)` gives each parameter the encoding of its
      own declared type when parameter ids are distinct. */
  lemma {:induction false} RecordParametersEntries(types: TypeMap, ps: seq<FunctionArgument>, n: nat)
    requires n <= |ps| && Distinct(IdsArgs(ps, n))
    ensures forall i :: 0 <= i < n ==> RecordParameters(types, ps, n)[ps[i].id] == ToLLVM(ps[i].argType)
    decreases n
  {
    if n > 0 {
      DistinctLeft(IdsArgs(ps, n - 1), multiset{ps[n - 1].id});
      RecordParametersEntries(types, ps, n - 1);
      forall i | 0 <= i < n - 1
        ensures ps[i].id != ps[n - 1].id
      {
        IdsArgsHas(ps, n - 1, i);
        Apart(IdsArgs(ps, n - 1), multiset{ps[n - 1].id}, ps[i].id);
      }
    }
  }

  /** The type a definition records for itself is the declared one. */
  lemma FunctionTypeDeclared(s: Stmt, types: TypeMap)
    requires s.FunctionDefinitionStatement? && Distinct(IdsArgs(s.parameters, |s.parameters|))
    ensures var types1 := RecordParameters(types, s.parameters, |s.parameters|);
      Fn(ToLLVM(s.returnType), ParameterEntries(s.parameters, types1), false) == DeclaredType(s)
  {
    RecordParametersEntries(types, s.parameters, |s.parameters|);
  }

  /** The steps of a successful definition. */
  lemma FunctionDefinitionResult(s: Stmt, st: State, names: BasicNames)
    requires s.FunctionDefinitionStatement? && st.env != [] && CheckFunctionDefinition(s, st, names).Success?
    requires Distinct(IdsArgs(s.parameters, |s.parameters|))
    ensures var types1 := RecordParameters(st.types, s.parameters, |s.parameters|);
      var body := CheckNode(s.inner, State(types1, BodyEnv(s)), names);
      && body.Success? && NodeIdOf(s.inner) in body.value.types
      && var bodyType := body.value.types[NodeIdOf(s.inner)];
      && (if s.async then Struct([bodyType]) else bodyType) == ToLLVM(s.returnType)
      && var r := CheckFunctionDefinition(s, st, names).value;
      && r.types == body.value.types[s.id := bodyType]
      && r.env == Bind(st.env, s.functionName, DeclaredType(s))
  {
    FunctionTypeDeclared(s, st.types);
  }

  /** A definition must not be named `main`, must be at top level, and when
      async must return a promise.  Its body is checked in `BodyEnv` and its
      type, wrapped in a one-field struct when async, must be the encoded
      return type; the definition gets the body's type and each parameter
      its declared type; the name is bound to the declared function type
      unless the frame binds it already. */
  lemma FunctionDefinitionRule(s: Stmt, st: State, names: BasicNames)
    requires s.FunctionDefinitionStatement? && st.env != [] && UniqueStmt(s)
    ensures s.functionName == "main" ==>
      CheckFunctionDefinition(s, st, names) == Failure(TypeException(FunctionNamedMain))
    ensures s.functionName != "main" && |st.env| > 1 ==>
      CheckFunctionDefinition(s, st, names) == Failure(TypeException(NestedFunctionDeclaration))
    ensures s.functionName != "main" && |st.env| == 1 && s.async && GenericName(s.returnType, names) != "promise" ==>
      CheckFunctionDefinition(s, st, names) == Failure(TypeException(AsyncMustReturnPromise))
    ensures var r := CheckFunctionDefinition(s, st, names);
      r.Success? ==>
        && s.functionName != "main" && |st.env| == 1
        && CheckNode(s.inner, State(RecordParameters(st.types, s.parameters, |s.parameters|), BodyEnv(s)), names).Success?
        && NodeIdOf(s.inner) in r.value.types && s.id in r.value.types
        && r.value.types[s.id] == r.value.types[NodeIdOf(s.inner)]
        && (if s.async then Struct([r.value.types[s.id]]) else r.value.types[s.id]) == ToLLVM(s.returnType)
        && (s.functionName !in st.env[0] ==>
              Scopes.LookupIn(r.value.env, s.functionName) == Some(TypeContainer(DeclaredType(s))))
        && (s.functionName in st.env[0] ==> r.value.env == st.env)
    ensures var body := CheckNode(s.inner, State(RecordParameters(st.types, s.parameters, |s.parameters|), BodyEnv(s)), names);
      s.functionName != "main" && |st.env| == 1 && !(s.async && GenericName(s.returnType, names) != "promise") &&
      body.Success? && NodeIdOf(s.inner) in body.value.types &&
      (if s.async then Struct([body.value.types[NodeIdOf(s.inner)]]) else body.value.types[NodeIdOf(s.inner)]) != ToLLVM(s.returnType) ==>
        CheckFunctionDefinition(s, st, names) == Failure(TypeException(SignatureMismatch))
  {
    FunctionDefinitionIds(s);
    FunctionTypeDeclared(s, st.types);
    if CheckFunctionDefinition(s, st, names).Success? {
      FunctionDefinitionResult(s, st, names);
      if s.functionName !in st.env[0] {
        Scopes.DefineThenLookup(st.env, s.functionName, TypeContainer(DeclaredType(s)));
      }
    }
  }

  /** After a definition each of its parameters has the encoding of its
      declared type: the body's check writes no parameter's entry. */
  lemma FunctionParametersRule(s: Stmt, st: State, names: BasicNames)
    requires s.FunctionDefinitionStatement? && st.env != [] && UniqueStmt(s)
    ensures var r := CheckFunctionDefinition(s, st, names);
      r.Success? ==>
        forall i :: 0 <= i < |s.parameters| ==>
          s.parameters[i].id in r.value.types && r.value.types[s.parameters[i].id] == ToLLVM(s.parameters[i].argType)
  {
    if CheckFunctionDefinition(s, st, names).Success? {
      FunctionDefinitionIds(s);
      FunctionDefinitionResult(s, st, names);
      var ps := s.parameters;
      var types1 := RecordParameters(st.types, ps, |ps|);
      RecordParametersEntries(st.types, ps, |ps|);
      var st2 := CheckNode(s.inner, State(types1, BodyEnv(s)), names).value;
      NodeFrame(s.inner, State(types1, BodyEnv(s)), names);
      forall i | 0 <= i < |ps|
        ensures ps[i].id in st2.types && st2.types[ps[i].id] == ToLLVM(ps[i].argType)
      {
        Untouched(types1, st2.types, IdsN(s.inner), ps[i].id);
      }
    }
  }

  /** A call statement only checks its arguments: the callee is not looked
      up, so a call of an unbound name passes; it gets no entry. */
  lemma CallStatementRule(s: Stmt, st: State, names: BasicNames)
    requires s.FunctionCallStatement? && st.env != [] && UniqueStmt(s)
    ensures CheckStmt(s, st, names).Success? <==> CheckExprs(s.arguments, |s.arguments|, st, names).Success?
    ensures var r := CheckStmt(s, st, names);
      r.Success? ==> r.value.env == st.env && (s.id in r.value.types <==> s.id in st.types)
  {
    if CheckStmt(s, st, names).Success? {
      ExprsFrame(s.arguments, |s.arguments|, st, names);
      Apart(multiset{s.id}, ChildIdsS(s), s.id);
      Untouched(st.types, CheckStmt(s, st, names).value.types, IdsEs(s.arguments, |s.arguments|), s.id);
    }
  }

  // ---------------------------------------------------------------------
  // Shapes without a rule, and the whole pass

  /** `for`, channel pushes, lambdas and channel loads have no case in the
      checker: they pass, and write nothing. */
  lemma UnhandledShapes(s: Stmt, e: Expr, st: State, names: BasicNames)
    requires st.env != []
    ensures s.ForStatement? || s.ChannelPushStatement? || s.LambdaExpression? ==> CheckStmt(s, st, names) == Success(st)
    ensures e.ChannelLoadExpression? ==> CheckExpr(e, st, names) == Success(st)
  {
  }

  /** So a declaration whose value is a channel load throws when it reads
      the value's (missing) entry. */
  lemma ChannelLoadDeclaration(s: Stmt, st: State, names: BasicNames)
    requires s.DeclarationStatement? && s.value.ChannelLoadExpression? && st.env != []
    requires s.value.id !in st.types
    ensures CheckDeclaration(s, st, names) == Failure(KeyNotFound(s.value.id))
  {
  }

  /** The statements after statement `i` leave the entries of its nodes as
      its own check left them. */
  lemma {:induction false} LaterStatementsKeep(ss: seq<Stmt>, n: nat, m: nat, i: nat, st: State, names: BasicNames, k: NodeId)
    requires i < m <= n <= |ss| && st.env != [] && Distinct(IdsSs(ss, n)) && k in IdsS(ss[i])
    requires CheckStmts(ss, m, st, names).Success?
    ensures CheckStmts(ss, i + 1, st, names).Success?
    ensures var step := CheckStmts(ss, i + 1, st, names).value.types;
      var later := CheckStmts(ss, m, st, names).value.types;
      (k in later <==> k in step) && (k in step ==> later[k] == step[k])
    decreases m
  {
    if m > i + 1 {
      LaterStatementsKeep(ss, n, m - 1, i, st, names, k);
      var st1 := CheckStmts(ss, m - 1, st, names).value;
      StmtFrame(ss[m - 1], st1, names);
      IdsSsApart(ss, n, i, m - 1, k);
      Untouched(st1.types, CheckStmts(ss, m, st, names).value.types, IdsS(ss[m - 1]), k);
    }
  }

  /** The rules hold of the table the whole pass returns: each top-level
      statement was checked, successfully, in the state the statements
      before it left, and every node of it keeps in the returned table the
      entry, or the absence of one, that its check left.  So what a rule
      lemma states about the table after a top-level statement's check
      holds of the returned table too. */
  lemma ProgramEntries(root: TwiceChunk, names: BasicNames, i: nat, k: NodeId)
    requires Distinct(IdsSs(root.statements, |root.statements|))
    requires i < |root.statements| && k in IdsS(root.statements[i])
    requires CheckProgram(root, names).Success?
    ensures var before := CheckStmts(root.statements, i, State(map[], [map[]]), names);
      && before.Success?
      && CheckStmt(root.statements[i], before.value, names).Success?
      && var step := CheckStmt(root.statements[i], before.value, names).value.types;
      var final := CheckProgram(root, names).value;
      && (k in final <==> k in step)
      && (k in step ==> final[k] == step[k])
  {
    var ss := root.statements;
    LaterStatementsKeep(ss, |ss|, |ss|, i, State(map[], [map[]]), names, k);
  }

  /** Every entry of the table a successful pass builds belongs to a node of
      the program. */
  lemma ProgramRule(root: TwiceChunk, names: BasicNames)
    ensures var r := CheckProgram(root, names);
      r.Success? ==> forall k | k in r.value :: k in IdsSs(root.statements, |root.statements|)
  {
    if CheckProgram(root, names).Success? {
      StmtsFrame(root.statements, |root.statements|, State(map[], [map[]]), names);
    }
  }
}
