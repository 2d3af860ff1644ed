# Twice type checker, modelled in Dafny

Twice is a small language with async functions, promises, channels and
arrays, compiled to LLVM. Its compiler checks types in one pass over the
syntax tree: `TypeChecker`. The checker fills a table from each node to the
LLVM type the node has. It keeps a chain of scopes (`VariableStack`) that
maps each visible name to its type. It stops at the first rule a node breaks
by throwing an exception.

This project models that pass:

- `Llvm.dfy`: the LLVM type handles the checker builds, and their `Kind`.
- `SurfaceTypes.dfy`: the surface types (`IType`), with `Name()` and
  `GenericName()` of arrays, promises, channels and function types.
- `Escapes.dfy`: the escape decoding done by the `StringExpression`
  constructor.
- `Ast.dfy`: the syntax tree. Every node has an `id` that stands for the
  object identity the checker's table is keyed by.
- `Scopes.dfy`: the class `VariableStack`, proved against a reference view
  of the chain as a list of dictionaries, innermost first.
- `Typing.dfy`: `ToLLVM`, and a functional specification of the pass. There
  is one function per case of the visitor, taken in the source's order, so
  the first violation is the error reported.
- `Checker.dfy`: the class `TypeChecker`, imperative like the source. Every
  visit method is proved to report the error the specification reports, or
  to leave the table and the scope chain in the state the specification
  computes.
- `Framing.dfy`, `Ids.dfy`: a successful check writes table entries only
  for the nodes of its own subtree. It only adds bindings to the current
  scope.
- `Rules.dfy`: the typing rules, and the error each broken rule reports.
  Each rule is stated over the table right after the node's own check.
  `ProgramEntries` carries the entries of every top-level statement's nodes
  unchanged into the table the whole pass returns.
- `Encoding.dfy`: properties of `ToLLVM`.

Exceptions are modelled as a result value, in three kinds:

- `TypeException` with a reason. The reason stands for the message text.
- `KeyNotFound`, for reading the table entry of a node that has none.
- `IndexOutOfRange`, for awaiting a struct without fields.

The C# constructor both builds the checker and runs the pass. Here it is a
Dafny constructor followed by `VisitChunk`. `Check` runs the two together.

Some consequences of the source can be read off the lemmas:

- An array access demands an LLVM array type, and only an array literal has
  one (`ArrayLiteralRule`). A declaration binds its value's type
  (`DeclarationRule`), so a variable declared from a literal can be indexed.
  A type that comes from `ToLLVM` is never an LLVM array: arrays become
  pointers (`ToLLVM`, `EncodingShapes`). So a parameter of array type cannot
  be indexed (`ArrayAccessRule`). Neither can any value whose type comes
  from a declared type, such as a call's result.
- A call statement never looks its callee up (`CallStatementRule`).
- `for` loops, channel pushes, lambdas and channel loads pass without
  checks (`UnhandledShapes`). So a declaration whose value is a channel load
  throws when it reads the missing entry (`ChannelLoadDeclaration`).

## Model

| member | source | states |
|---|---|---|
| Llvm.Kind | Twice.Compiler.Backend.TypeChecker/TypeChecker.cs:258-262 | `i1`, `i8` and `i32` share the integer kind; only function, struct and array types have their own kinds |
| SurfaceTypes.GenericName | Twice.Compiler.Backend.SimpleAST/Types/FunctionType.cs:17-20 | a generic type's generic name is one of the four constants; a basic type's is its name |
| SurfaceTypes.GenericNameRecognises | Twice.Compiler.Backend.TypeChecker/TypeChecker.cs:188 | when no basic type is named like a generic, the generic names `function`, `promise`, `array`, `channel` identify the kind of type exactly |
| SurfaceTypes.FunctionGenericNameConstant | Twice.Compiler.Backend.SimpleAST/Types/FunctionType.cs:17-20 | every function type has the generic name `function`, whatever its return and argument types |
| SurfaceTypes.Name | Twice.Compiler.Backend.SimpleAST/Types/FunctionType.cs:12-15 | a function type's name ends with `)`; an array, promise or channel type's name ends with `>` (the same shape is in ArrayType.cs, PromiseType.cs and ChannelType.cs, lines 7-10) |
| SurfaceTypes.Join | Twice.Compiler.Backend.SimpleAST/Types/FunctionType.cs:14 | the joined text starts with the first part and has at least one character per separator |
| SurfaceTypes.ArgNames | Twice.Compiler.Backend.SimpleAST/Types/FunctionType.cs:14 | the argument names are the names of the argument types, position by position |
| SurfaceTypes.JoinSeparators | Twice.Compiler.Backend.SimpleAST/Types/FunctionType.cs:14 | joining n parts adds exactly n - 1 separators and no other character |
| SurfaceTypes.JoinSnoc | Twice.Compiler.Backend.SimpleAST/Types/FunctionType.cs:14 | joining one more part appends a separator and that part, so the parts keep their order |
| SurfaceTypes.FunctionNameShape | Twice.Compiler.Backend.SimpleAST/Types/FunctionType.cs:12-15 | a function type's name starts with the return type's name and ends with `)`; no arguments give `()`, one argument gives `(name)` |
| SurfaceTypes.FunctionNameSnoc | Twice.Compiler.Backend.SimpleAST/Types/FunctionType.cs:12-15 | one more argument inserts a comma and its name before the closing parenthesis |
| SurfaceTypes.FunctionNameCommas | Twice.Compiler.Backend.SimpleAST/Types/FunctionType.cs:12-15 | the commas in a function type's name are those of its parts plus one fewer than its arguments |
| SurfaceTypes.WrapperNameShape | Twice.Compiler.Backend.SimpleAST/Types/ArrayType.cs:7-10 | an array, promise or channel name is its generic name, `<`, the inner type's name, `>` |
| SurfaceTypes.WrapperNameInjective | Twice.Compiler.Backend.SimpleAST/Types/PromiseType.cs:7-10 | two wrapper types of one kind whose inner names differ have different names |
| Escapes.ReplacePair | Twice.Compiler.Backend.SimpleAST/Expressions/StringExpression.cs:12 | one `Replace` pass never lengthens the text, and removes at most half of it |
| Escapes.Decode | Twice.Compiler.Backend.SimpleAST/Expressions/StringExpression.cs:12 | the three replacement passes never lengthen the text |
| Escapes.ReplacePairRemovesPair | Twice.Compiler.Backend.SimpleAST/Expressions/StringExpression.cs:12 | after a `Replace` pass no occurrence of the pair is left |
| Escapes.ReplacePairKeepsFree | Twice.Compiler.Backend.SimpleAST/Expressions/StringExpression.cs:12 | a later pass does not bring back an escape that an earlier pass removed |
| Escapes.ReplacePairIdentity | Twice.Compiler.Backend.SimpleAST/Expressions/StringExpression.cs:12 | a pass over text without the pair changes nothing |
| Escapes.DecodeMatchesOnePass | Twice.Compiler.Backend.SimpleAST/Expressions/StringExpression.cs:12 | the three successive passes equal one left-to-right scan that replaces each escape it meets |
| Escapes.OnePassLength | Twice.Compiler.Backend.SimpleAST/Expressions/StringExpression.cs:12 | each replaced escape shortens the text by exactly one character |
| Escapes.DecodeLength | Twice.Compiler.Backend.SimpleAST/Expressions/StringExpression.cs:12 | the stored value is shorter than the source text by the number of escapes |
| Escapes.DecodeEscapeFree | Twice.Compiler.Backend.SimpleAST/Expressions/StringExpression.cs:12 | no escape is left in the stored value |
| Escapes.DecodeEscapeFreeUnchanged | Twice.Compiler.Backend.SimpleAST/Expressions/StringExpression.cs:12 | text without escapes is stored unchanged |
| Escapes.DecodeNoBackslash | Twice.Compiler.Backend.SimpleAST/Expressions/StringExpression.cs:12 | text without a backslash is stored unchanged |
| Escapes.DecodeIdempotent | Twice.Compiler.Backend.SimpleAST/Expressions/StringExpression.cs:12 | decoding twice gives the same value as decoding once |
| Escapes.OtherBackslashKept | Twice.Compiler.Backend.SimpleAST/Expressions/StringExpression.cs:12 | a backslash that starts no escape is kept, and decoding goes on at the next character |
| Escapes.EscapeReplaced | Twice.Compiler.Backend.SimpleAST/Expressions/StringExpression.cs:12 | an escape at the front becomes its control character, and decoding goes on after it |
| Ast.MakeStringExpression | Twice.Compiler.Backend.SimpleAST/Expressions/StringExpression.cs:10-13 | the constructed node stores the decoded text: one character shorter per escape, with no escape left |
| Scopes.LookupInFinds | Twice.Compiler.Backend.TypeChecker/VariableStack.cs:22-26 | lookup gives the value of the innermost frame that binds the name, in both directions |
| Scopes.LookupInMisses | Twice.Compiler.Backend.TypeChecker/VariableStack.cs:22-26 | lookup finds nothing exactly when no frame binds the name |
| Scopes.LookupInBound | Twice.Compiler.Backend.TypeChecker/VariableStack.cs:28-31 | a name is defined exactly when some frame binds it |
| Scopes.DefineThenLookup | Twice.Compiler.Backend.TypeChecker/VariableStack.cs:33-42 | defining a name the current frame lacks succeeds, and the name then resolves to the new value |
| Scopes.DefineRefused | Twice.Compiler.Backend.TypeChecker/VariableStack.cs:33-42 | redefining a name of the current frame fails and changes nothing |
| Scopes.DefineShadows | Twice.Compiler.Backend.TypeChecker/VariableStack.cs:33-42 | a name bound only further out can be defined again; it then hides the outer binding, which stays intact |
| Scopes.DefineKeepsOthers | Twice.Compiler.Backend.TypeChecker/VariableStack.cs:33-42 | defining a name changes no other name's lookup and no outer frame |
| Scopes.ShadowThenReturn | Twice.Compiler.Backend.TypeChecker/VariableStack.cs:17-42 | binding a name in a frame pushed on a chain, then dropping that frame, gives back the chain unchanged |
| Scopes.VariableStack.constructor | Twice.Compiler.Backend.TypeChecker/VariableStack.cs:12-15 | a root frame: no enclosing frame and no bindings |
| Scopes.VariableStack.Nested | Twice.Compiler.Backend.TypeChecker/VariableStack.cs:17-20 | a new empty frame in front of the enclosing chain |
| Scopes.VariableStack.Lookup | Twice.Compiler.Backend.TypeChecker/VariableStack.cs:22-26 | the recursive lookup through the enclosing frames equals the lookup in the list of frames |
| Scopes.VariableStack.IsDefined | Twice.Compiler.Backend.TypeChecker/VariableStack.cs:28-31 | true exactly when lookup finds the name, that is when some frame binds it |
| Scopes.VariableStack.SetValue | Twice.Compiler.Backend.TypeChecker/VariableStack.cs:33-42 | adds the binding to this frame only when the frame lacks the name, and reports whether it did; outer frames unchanged |
| Scopes.VariableStack.GetUpper | Twice.Compiler.Backend.TypeChecker/VariableStack.cs:44-47 | null exactly at a root frame; otherwise the enclosing chain, with the frames after this one |
| Typing.ToLLVM | Twice.Compiler.Backend.TypeChecker/TypeChecker.cs:220-244 | the encoding is never `i8` and never an LLVM array; it is a function type exactly for a function type, and the vararg flag is the one passed |
| Typing.OperatorType | Twice.Compiler.Backend.TypeChecker/TypeChecker.cs:313-363 | a result is missing exactly for `..`; any other result is the operand type or `i1` (`Rules.OperatorTable` gives every row) |
| Typing.BindParameters | Twice.Compiler.Backend.TypeChecker/TypeChecker.cs:199-202 | the frame binds at most one name per parameter, and the first parameter's name keeps its type (`Rules.BindParametersFirstWins` gives every parameter) |
| Typing.CheckProgram | Twice.Compiler.Backend.TypeChecker/TypeChecker.cs:41-47 | an empty chunk gives an empty table (`Rules.ProgramRule` and `Rules.ProgramEntries` state the rest) |
| Typing.CheckBlockStatementBody | Twice.Compiler.Backend.TypeChecker/TypeChecker.cs:57-72 | a block's body, in its own frame, leaves the enclosing frames as they were |
| Typing.CheckAssignment | Twice.Compiler.Backend.TypeChecker/TypeChecker.cs:77-92 | an assignment leaves the outer frames as they were (`Rules.AssignmentRule` states its rule and errors) |
| Typing.CheckIf | Twice.Compiler.Backend.TypeChecker/TypeChecker.cs:94-118 | an `if` leaves the outer frames as they were (`Rules.IfRule`) |
| Typing.CheckReturn | Twice.Compiler.Backend.TypeChecker/TypeChecker.cs:120-127 | a `return` leaves the outer frames as they were (`Rules.ReturnRule`) |
| Typing.CheckDeclaration | Twice.Compiler.Backend.TypeChecker/TypeChecker.cs:128-136 | a declaration leaves the outer frames as they were (`Rules.DeclarationRule`) |
| Typing.CheckAwaitStatement | Twice.Compiler.Backend.TypeChecker/TypeChecker.cs:138-146 | an `await` statement leaves the outer frames as they were (`Rules.AwaitStatementRule`) |
| Typing.CheckExtern | Twice.Compiler.Backend.TypeChecker/TypeChecker.cs:148-158 | an extern leaves the outer frames as they were (`Rules.ExternRule`) |
| Typing.CheckWhile | Twice.Compiler.Backend.TypeChecker/TypeChecker.cs:166-177 | a `while` leaves the outer frames as they were (`Rules.WhileRule`) |
| Typing.CheckFunctionDefinition | Twice.Compiler.Backend.TypeChecker/TypeChecker.cs:179-216 | a definition leaves the outer frames as they were (`Rules.FunctionDefinitionRule`) |
| Typing.CheckArrayAccess | Twice.Compiler.Backend.TypeChecker/TypeChecker.cs:253-266 | an array access leaves the scope chain as it found it (`Rules.ArrayAccessRule`) |
| Typing.CheckNegate | Twice.Compiler.Backend.TypeChecker/TypeChecker.cs:268-277 | a negation leaves the scope chain as it found it (`Rules.NegateRule`) |
| Typing.CheckAwaitExpression | Twice.Compiler.Backend.TypeChecker/TypeChecker.cs:279-289 | an `await` expression leaves the scope chain as it found it (`Rules.AwaitExpressionRule`) |
| Typing.CheckArrayLiteral | Twice.Compiler.Backend.TypeChecker/TypeChecker.cs:291-304 | an array literal leaves the scope chain as it found it (`Rules.ArrayLiteralRule`) |
| Typing.CheckBinOp | Twice.Compiler.Backend.TypeChecker/TypeChecker.cs:305-366 | a binary operation leaves the scope chain as it found it (`Rules.BinOpRule`) |
| Typing.CheckBlockExpression | Twice.Compiler.Backend.TypeChecker/TypeChecker.cs:367-380 | a block expression leaves the scope chain as it found it (`Rules.BlockExpressionRule`) |
| Typing.CheckBlockExpressionBody | Twice.Compiler.Backend.TypeChecker/TypeChecker.cs:372-376 | a block expression's body, in its own frame, leaves the enclosing frames as they were |
| Typing.CheckCall | Twice.Compiler.Backend.TypeChecker/TypeChecker.cs:391-421 | a call leaves the scope chain as it found it (`Rules.CallRule`) |
| Typing.CheckVariable | Twice.Compiler.Backend.TypeChecker/TypeChecker.cs:427-439 | a variable read leaves the scope chain as it found it (`Rules.VariableRule`) |
| Typing.Entry | Twice.Compiler.Backend.TypeChecker/TypeChecker.cs:89 | reading the table succeeds exactly for a node with an entry, else throws `KeyNotFound` for that node |
| Typing.CheckStmt | Twice.Compiler.Backend.TypeChecker/TypeChecker.cs:49-218 | a checked statement leaves the outer frames as they were; only the current one may change |
| Typing.CheckStmts | Twice.Compiler.Backend.TypeChecker/TypeChecker.cs:57 | visiting a list of statements in order has the same effect on the frames |
| Typing.StmtsFailureSticks | Twice.Compiler.Backend.TypeChecker/TypeChecker.cs:57 | once a statement throws, the later statements are not checked and the list throws that error |
| Typing.EntryTypes | Twice.Compiler.Backend.TypeChecker/TypeChecker.cs:59 | the collected types are exactly the entries of the statements that have one |
| Typing.CheckBlockStatement | Twice.Compiler.Backend.TypeChecker/TypeChecker.cs:53-76 | after a block the scope chain is the one before it |
| Typing.RecordParameters | Twice.Compiler.Backend.TypeChecker/TypeChecker.cs:194 | visiting the parameters gives every parameter an entry |
| Typing.ParameterEntries | Twice.Compiler.Backend.TypeChecker/TypeChecker.cs:196-197 | the parameter types of the function type are the parameters' entries, in order |
| Typing.CheckNode | Twice.Compiler.Backend.TypeChecker/TypeChecker.cs:443-462 | a successful visit leaves a non-empty scope chain |
| Typing.CheckExpr | Twice.Compiler.Backend.TypeChecker/TypeChecker.cs:246-441 | a checked expression leaves the scope chain as it found it |
| Typing.CheckExprs | Twice.Compiler.Backend.TypeChecker/TypeChecker.cs:295 | visiting a list of expressions leaves the scope chain as it found it |
| Typing.ExprsFailureSticks | Twice.Compiler.Backend.TypeChecker/TypeChecker.cs:295 | once an expression throws, the later ones are not checked and the list throws that error |
| Typing.AnyItemDiffers | Twice.Compiler.Backend.TypeChecker/TypeChecker.cs:299 | a result of "none differs" means every item has an entry equal to the first type |
| Typing.CheckArgumentTypes | Twice.Compiler.Backend.TypeChecker/TypeChecker.cs:412-417 | passing means every argument from the position on has an entry equal to its parameter type |
| Encoding.VarargOutermost | Twice.Compiler.Backend.TypeChecker/TypeChecker.cs:238-240 | the vararg flag reaches only the outermost function type; every other type ignores it |
| Encoding.EncodingShapes | Twice.Compiler.Backend.TypeChecker/TypeChecker.cs:220-244 | integers from `bool`/`int` only, `double` from `float`, pointers from arrays and strings, one-field structs from promises, function types from function types, `void` from `void` and channels; never an LLVM array and never `i8` |
| Encoding.NeverI8 | Twice.Compiler.Backend.TypeChecker/TypeChecker.cs:220-244 | no surface type is encoded as `i8` |
| Encoding.EncodingInjective | Twice.Compiler.Backend.TypeChecker/TypeChecker.cs:220-244 | two channel-free types with the same encoding are the same type |
| Encoding.ChannelIsVoid | Twice.Compiler.Backend.TypeChecker/TypeChecker.cs:243 | a channel type falls through to `void`, like the `void` type |
| Framing.BindExtends | Twice.Compiler.Backend.TypeChecker/VariableStack.cs:33-42 | `SetValue` keeps every binding the frame already had |
| Framing.RecordParametersFrame | Twice.Compiler.Backend.TypeChecker/TypeChecker.cs:194 | visiting the parameters writes only the parameters' entries and removes none |
| Framing.StmtFrame | Twice.Compiler.Backend.TypeChecker/TypeChecker.cs:49-218 | a statement writes entries only inside its subtree, removes none, and only adds bindings to the current frame |
| Framing.StmtsFrame | Twice.Compiler.Backend.TypeChecker/TypeChecker.cs:57 | the same for a list of statements |
| Framing.BlockStatementFrame | Twice.Compiler.Backend.TypeChecker/TypeChecker.cs:53-76 | the same for a block |
| Framing.BlockStatementBodyFrame | Twice.Compiler.Backend.TypeChecker/TypeChecker.cs:57-72 | the same for a block's body in its own frame |
| Framing.AssignmentFrame | Twice.Compiler.Backend.TypeChecker/TypeChecker.cs:77-92 | an assignment writes only inside its subtree and changes no binding |
| Framing.IfFrame | Twice.Compiler.Backend.TypeChecker/TypeChecker.cs:94-118 | an `if` writes only inside its subtree and only adds bindings |
| Framing.ReturnFrame | Twice.Compiler.Backend.TypeChecker/TypeChecker.cs:120-127 | a `return` writes only inside its subtree and changes no binding |
| Framing.DeclarationFrame | Twice.Compiler.Backend.TypeChecker/TypeChecker.cs:128-136 | a declaration writes only inside its subtree and only adds bindings |
| Framing.AwaitStatementFrame | Twice.Compiler.Backend.TypeChecker/TypeChecker.cs:138-146 | an `await` statement writes only inside its subtree and changes no binding |
| Framing.WhileFrame | Twice.Compiler.Backend.TypeChecker/TypeChecker.cs:166-177 | a `while` writes only inside its subtree and only adds bindings |
| Framing.FunctionDefinitionFrame | Twice.Compiler.Backend.TypeChecker/TypeChecker.cs:179-216 | a definition writes only its own, its parameters' and its body's entries, and only adds bindings to the outer frame |
| Framing.NodeFrame | Twice.Compiler.Backend.TypeChecker/TypeChecker.cs:443-462 | a visit writes only inside the visited subtree |
| Framing.ExprFrame | Twice.Compiler.Backend.TypeChecker/TypeChecker.cs:246-441 | an expression writes only inside its subtree |
| Framing.ExprsFrame | Twice.Compiler.Backend.TypeChecker/TypeChecker.cs:295 | the same for a list of expressions |
| Framing.ArrayAccessFrame | Twice.Compiler.Backend.TypeChecker/TypeChecker.cs:253-266 | the same for an array access |
| Framing.NegateFrame | Twice.Compiler.Backend.TypeChecker/TypeChecker.cs:268-277 | the same for a negation |
| Framing.AwaitExpressionFrame | Twice.Compiler.Backend.TypeChecker/TypeChecker.cs:279-289 | the same for an `await` expression |
| Framing.ArrayLiteralFrame | Twice.Compiler.Backend.TypeChecker/TypeChecker.cs:291-304 | the same for an array literal |
| Framing.BinOpFrame | Twice.Compiler.Backend.TypeChecker/TypeChecker.cs:305-366 | the same for a binary operation |
| Framing.BlockExpressionFrame | Twice.Compiler.Backend.TypeChecker/TypeChecker.cs:367-380 | the same for a block expression |
| Framing.BlockExpressionBodyFrame | Twice.Compiler.Backend.TypeChecker/TypeChecker.cs:372-376 | the same for a block expression's body in its own frame |
| Framing.CallFrame | Twice.Compiler.Backend.TypeChecker/TypeChecker.cs:391-421 | the same for a call |
| Rules.Untouched | Twice.Compiler.Backend.TypeChecker/TypeChecker.cs:35 | an entry outside what a step may write is present and equal before and after |
| Rules.BlockStatementRule | Twice.Compiler.Backend.TypeChecker/TypeChecker.cs:53-76 | a block gets the one type shared by its children's entries, or `void` when none has one; children with two different entries make it throw; its frame is gone afterwards |
| Rules.DeclarationRule | Twice.Compiler.Backend.TypeChecker/TypeChecker.cs:128-136 | a declaration binds its name to its value's type; redefining a name of the current frame throws; the declaration gets no entry |
| Rules.AssignmentRule | Twice.Compiler.Backend.TypeChecker/TypeChecker.cs:77-92 | an unbound name or a name bound to a function type throws; a checked value whose type differs from the bound type throws `AssignmentMismatch` with the name; on success the value's type equals the bound type, and no binding or own entry is made |
| Rules.IfRule | Twice.Compiler.Backend.TypeChecker/TypeChecker.cs:94-118 | the condition is exactly `i1`, else it throws; with an `else`, checked branches whose types differ throw `BranchTypesDiffer`, a branch without an entry counting as `void`; on success both branches have one type and the `if` has its `then` branch's type |
| Rules.WhileRule | Twice.Compiler.Backend.TypeChecker/TypeChecker.cs:166-177 | the condition is exactly `i1`, else it throws; the loop has its body's type, or `void` |
| Rules.ReturnRule | Twice.Compiler.Backend.TypeChecker/TypeChecker.cs:120-127 | a `return` has its value's type, or `void` without a value, and changes no binding |
| Rules.AwaitStatementRule | Twice.Compiler.Backend.TypeChecker/TypeChecker.cs:138-146 | the awaited value has a struct type, else it throws; the statement gets no entry |
| Rules.VariableRule | Twice.Compiler.Backend.TypeChecker/TypeChecker.cs:427-439 | an unbound name or a name bound to a function type throws; otherwise the read has the bound type |
| Rules.NegateRule | Twice.Compiler.Backend.TypeChecker/TypeChecker.cs:268-277 | the operand is exactly `i1`, else it throws; the negation is `i1` |
| Rules.AwaitExpressionRule | Twice.Compiler.Backend.TypeChecker/TypeChecker.cs:279-289 | the awaited value has a struct type, else it throws; the result is the struct's first field, and a struct without fields throws |
| Rules.ArrayAccessRule | Twice.Compiler.Backend.TypeChecker/TypeChecker.cs:253-266 | the index has an integer type and the target an LLVM array type, each checked in that order with its own error; the result is the element type |
| Rules.BinOpRule | Twice.Compiler.Backend.TypeChecker/TypeChecker.cs:305-366 | both operands have one type, else it throws; the operator table decides the result type or the error; `..` gets no entry |
| Rules.OperatorTable | Twice.Compiler.Backend.TypeChecker/TypeChecker.cs:313-363 | for operands of one type: arithmetic takes numbers and keeps their type, `%` takes `i32` only, comparisons and equality take numbers and give `i1`, `and`/`or` take `i1`, `..` has no result; the repeated operand comparisons never fail |
| Rules.AnyItemDiffersFinds | Twice.Compiler.Backend.TypeChecker/TypeChecker.cs:299 | over items that all have entries, the test is true exactly when some item's type differs |
| Rules.ArrayLiteralRule | Twice.Compiler.Backend.TypeChecker/TypeChecker.cs:291-304 | an empty literal throws, and so do items of different types; otherwise it is an LLVM array of the first item's type with one element per item |
| Rules.ArgumentTypesFirstMismatch | Twice.Compiler.Backend.TypeChecker/TypeChecker.cs:412-417 | the reported position, counted from one, is the first argument whose type differs from its parameter's |
| Rules.CallRule | Twice.Compiler.Backend.TypeChecker/TypeChecker.cs:391-421 | an unbound callee or one not bound to a function type throws; a vararg callee gives its return type without visiting the arguments; otherwise argument count and each argument type must match, and the call has the return type |
| Rules.BlockExpressionRule | Twice.Compiler.Backend.TypeChecker/TypeChecker.cs:367-380 | a block expression has its result expression's type, and its bindings are gone afterwards |
| Rules.ExternRule | Twice.Compiler.Backend.TypeChecker/TypeChecker.cs:148-158 | an extern below top level, or one whose type is not a function type, throws; it gets its type's encoding with its vararg flag, and its name is bound to it unless already bound in the frame |
| Rules.BindParametersKeys | Twice.Compiler.Backend.TypeChecker/TypeChecker.cs:199-202 | the parameter frame binds exactly the parameters' names |
| Rules.BindParametersFirstWins | Twice.Compiler.Backend.TypeChecker/TypeChecker.cs:199-202 | a repeated parameter name keeps the type of its first parameter |
| Rules.BodyFrameKeys | Twice.Compiler.Backend.TypeChecker/TypeChecker.cs:191-204 | a body sees one root frame, binding the parameters' names and the function's name and nothing else |
| Rules.BodyFrameParameters | Twice.Compiler.Backend.TypeChecker/TypeChecker.cs:199-202 | in the body each parameter resolves to its declared type, the first of a repeated name winning |
| Rules.BodyFrameOwnName | Twice.Compiler.Backend.TypeChecker/TypeChecker.cs:204 | in the body the function's own name resolves to its declared type, unless a parameter has that name |
| Rules.RecordParametersEntries | Twice.Compiler.Backend.TypeChecker/TypeChecker.cs:194 | when parameter ids are distinct, each parameter's entry is its declared type's encoding |
| Rules.FunctionTypeDeclared | Twice.Compiler.Backend.TypeChecker/TypeChecker.cs:196-197 | the function type built from the parameters' entries is the declared signature |
| Rules.FunctionDefinitionRule | Twice.Compiler.Backend.TypeChecker/TypeChecker.cs:179-216 | `main`, a nested definition, and an async one not returning a promise each throw in that order; a checked body whose type, in a one-field struct when async, differs from the return type throws `SignatureMismatch`; on success the two are equal, the definition gets the body's type and its name is bound to its signature unless already bound |
| Rules.FunctionParametersRule | Twice.Compiler.Backend.TypeChecker/TypeChecker.cs:194-211 | after a definition every parameter still has its declared type's encoding |
| Rules.CallStatementRule | Twice.Compiler.Backend.TypeChecker/TypeChecker.cs:160-164 | a call statement passes exactly when its arguments pass; the callee is not looked up, and it makes no entry or binding |
| Rules.UnhandledShapes | Twice.Compiler.Backend.TypeChecker/TypeChecker.cs:51-217 | `for`, channel push, lambda and channel load have no case: they pass and change nothing |
| Rules.ChannelLoadDeclaration | Twice.Compiler.Backend.TypeChecker/TypeChecker.cs:130-132 | a declaration whose value is a channel load throws on the missing entry |
| Rules.ProgramRule | Twice.Compiler.Backend.TypeChecker/TypeChecker.cs:41-47 | every entry of the finished table belongs to a node of the program |
| Rules.ProgramEntries | Twice.Compiler.Backend.TypeChecker/TypeChecker.cs:46 | in a program with distinct ids, a successful pass checked each top-level statement successfully, in the state the statements before it left; each node of that statement has in the returned table the entry, or the absence of one, that the statement's check left |
| Checker.TypeChecker.constructor | Twice.Compiler.Backend.TypeChecker/TypeChecker.cs:41-44 | an empty table and one fresh root frame |
| Checker.TypeChecker.VisitChunk | Twice.Compiler.Backend.TypeChecker/TypeChecker.cs:46 | visiting the top-level statements reports what the specification of the list reports |
| Checker.TypeChecker.Visit | Twice.Compiler.Backend.TypeChecker/TypeChecker.cs:443-462 | the dispatch on statements, expressions and arguments matches the specification, and on success leaves the same scope object |
| Checker.TypeChecker.VisitArgument | Twice.Compiler.Backend.TypeChecker/TypeChecker.cs:457-461 | an argument's entry becomes its declared type's encoding |
| Checker.TypeChecker.VisitStatement | Twice.Compiler.Backend.TypeChecker/TypeChecker.cs:49-218 | matches the statement specification |
| Checker.TypeChecker.VisitStatements | Twice.Compiler.Backend.TypeChecker/TypeChecker.cs:57 | the loop over a list matches the list specification |
| Checker.TypeChecker.VisitBlockStatement | Twice.Compiler.Backend.TypeChecker/TypeChecker.cs:53-76 | matches the block specification, popping the frame it pushed |
| Checker.TypeChecker.VisitBlockStatementBody | Twice.Compiler.Backend.TypeChecker/TypeChecker.cs:57-72 | matches the specification of a block's body |
| Checker.TypeChecker.VisitAssignment | Twice.Compiler.Backend.TypeChecker/TypeChecker.cs:77-92 | matches the assignment specification |
| Checker.TypeChecker.VisitIf | Twice.Compiler.Backend.TypeChecker/TypeChecker.cs:94-118 | matches the `if` specification |
| Checker.TypeChecker.VisitReturn | Twice.Compiler.Backend.TypeChecker/TypeChecker.cs:120-127 | matches the `return` specification |
| Checker.TypeChecker.VisitDeclaration | Twice.Compiler.Backend.TypeChecker/TypeChecker.cs:128-136 | matches the declaration specification |
| Checker.TypeChecker.VisitAwaitStatement | Twice.Compiler.Backend.TypeChecker/TypeChecker.cs:138-146 | matches the `await` statement specification |
| Checker.TypeChecker.VisitExtern | Twice.Compiler.Backend.TypeChecker/TypeChecker.cs:148-158 | matches the extern specification |
| Checker.TypeChecker.VisitWhile | Twice.Compiler.Backend.TypeChecker/TypeChecker.cs:166-177 | matches the `while` specification |
| Checker.TypeChecker.VisitFunctionDefinition | Twice.Compiler.Backend.TypeChecker/TypeChecker.cs:179-216 | matches the definition specification, restoring the outer frame |
| Checker.TypeChecker.EnterFunction | Twice.Compiler.Backend.TypeChecker/TypeChecker.cs:191-204 | records the parameters' entries and installs a new root frame binding the parameters and the function's name to the signature |
| Checker.TypeChecker.VisitArguments | Twice.Compiler.Backend.TypeChecker/TypeChecker.cs:194 | the loop gives each parameter its entry |
| Checker.TypeChecker.DefineParameters | Twice.Compiler.Backend.TypeChecker/TypeChecker.cs:199-202 | the loop of `SetValue` calls leaves the frame holding the parameters, the first of a repeated name winning |
| Checker.TypeChecker.VisitExpression | Twice.Compiler.Backend.TypeChecker/TypeChecker.cs:246-441 | matches the expression specification |
| Checker.TypeChecker.VisitLiteral | Twice.Compiler.Backend.TypeChecker/TypeChecker.cs:250-252 | string, bool, float and int literals get `i8*`, `i1`, `double` and `i32` |
| Checker.TypeChecker.VisitExpressions | Twice.Compiler.Backend.TypeChecker/TypeChecker.cs:295 | the loop over a list matches the list specification |
| Checker.TypeChecker.VisitArrayAccess | Twice.Compiler.Backend.TypeChecker/TypeChecker.cs:253-266 | matches the array access specification |
| Checker.TypeChecker.VisitNegate | Twice.Compiler.Backend.TypeChecker/TypeChecker.cs:268-277 | matches the negation specification |
| Checker.TypeChecker.VisitAwaitExpression | Twice.Compiler.Backend.TypeChecker/TypeChecker.cs:279-289 | matches the `await` expression specification |
| Checker.TypeChecker.VisitArrayLiteral | Twice.Compiler.Backend.TypeChecker/TypeChecker.cs:291-304 | matches the array literal specification |
| Checker.TypeChecker.VisitBinOp | Twice.Compiler.Backend.TypeChecker/TypeChecker.cs:305-366 | matches the binary operation specification |
| Checker.TypeChecker.VisitBlockExpression | Twice.Compiler.Backend.TypeChecker/TypeChecker.cs:367-380 | matches the block expression specification, popping the frame it pushed |
| Checker.TypeChecker.VisitBlockExpressionBody | Twice.Compiler.Backend.TypeChecker/TypeChecker.cs:372-376 | matches the specification of a block expression's body |
| Checker.TypeChecker.VisitCall | Twice.Compiler.Backend.TypeChecker/TypeChecker.cs:391-421 | the loop over parameters matches the call specification, reporting the first mismatching position |
| Checker.TypeChecker.VisitVariable | Twice.Compiler.Backend.TypeChecker/TypeChecker.cs:427-439 | matches the variable specification |
| Checker.Check | Twice.Compiler.Backend.TypeChecker/TypeChecker.cs:41-47 | constructing a checker and running it gives the specification's table or its first exception |

## Left out

- `realReturn`: the checker declares this field but never writes it.
- The message texts of the exceptions: each is a `Reason` constructor. A
  name or a position the message mentions is a field of that constructor.
- The `Name()` of the basic types: their source is not part of this model.
  Every function that needs one takes it as the parameter `names`. What is
  proved holds for every naming, or for every naming that differs from the
  four generic names.
- LLVM handle equality is equality of the datatype. A pointer keeps its
  pointee. With opaque pointers, all pointers in one address space would
  compare equal; this model does not assume that.
- The width of array literal counts (`uint`) and of integer literals is not
  modelled. Neither can overflow in a tree the parser builds.
- The state a failed visit leaves behind is not specified. The exception
  ends the pass, and no caller looks at that state.
- Rules.BlockStatementRule, Rules.IfRule and the other rule lemmas assume
  that the node's ids are distinct, as the parser's fresh objects are. A tree
  that shares a node between two places is not covered.
- The parser, the code generator and the command-line driver are not part
  of this model. Neither is reading files or writing output.
