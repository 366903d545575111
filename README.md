# Information-flow type checker and code generator — a Dafny model

This project models the core of a small compiler for a toy imperative language. Every variable in the language carries a security label, either `low` or `high`. The compiler has four parts, and the model covers each:

- **The scope stack** (`scope.h`). A stack of symbol tables, innermost first. Each table maps a name to a symbol, which holds an LLVM value and an `SType` (an LLVM type plus a label). The model is the classes `Scopes.SymbolTable` and `Scopes.Scope`. They are proved against the pure environment `Scopes.Env`, a sequence of frames, and its operations `Lookup`, `Open`, `Close` and `Declare`.
- **The recursive type checker** (`typecheck.cpp`). One `typeCheck` per node kind. It returns the node's `SType`, or NULL after printing a diagnostic. It rejects an implicit flow: an assignment to a low variable from inside a branch whose guard is high. It also rejects an explicit flow: a high value assigned to a low variable.
  - The rules are the functions `TypeRules.Check`, `CheckAssignment` and `CheckBlock`. Each returns the SType, the environment afterwards and the diagnostics, in order.
  - The methods of `TypeCheck` run the same checks on a shared mutable `Scope`. Each is proved to produce exactly what the rules say.
  - The lemmas in `TypeRules` state what the rules guarantee: non-interference-style confinement, explicit-flow soundness, the declaration discipline, block sequencing and the program verdict.
- **The visitor type checker** (`typecheckVis.cpp`). The same checks, restructured as per-node visits. They communicate through a stack `types` of STypes and through the shared scope. Diagnostics go to a log.
- **The visitor code generator** (`codegenVis.cpp`). Per-node visits that push values onto a stack `vals` and emit LLVM instructions.
  - LLVM is abstracted as a trace of placed instructions (`CodeGenVis.Placed`) and a list of basic blocks.
  - The visitor keeps an invariant: every bound variable's value is an `alloca`.

Diagnostics are modelled as values of `TypeRules.Diag`, one per message the source prints.

Three choices follow the code as written:

- A declaration is rejected if the name is bound in *any* open table, not only the innermost one: the source looks the name up across the whole stack, so a declaration can never shadow an outer variable.
- Each table carries a label, and `Scope` reports the innermost label as the security context. The shipped `scope.h` has neither: the `InitializeScope(name)` it declares takes no label, and it has no `getSecurityContext`. Yet `typecheck.cpp` calls both `InitializeScope(name, label)` and `getSecurityContext()`. The model gives `InitializeScope` a label argument and reads the context from the innermost table.
- An `InitializeScope()` with no arguments, as the block visitors call it, opens a table with the empty name and the empty label.

## Model

| member | source | states |
|---|---|---|
| Scopes.LookupNoneIff | scope.h:62-69 | Lookup finds nothing exactly when no table on the stack binds the name |
| Scopes.LookupInnermost | scope.h:62-69 | when table k is the first that binds the name, lookup returns that table's symbol: inner bindings shadow outer ones |
| Scopes.LookupFound | scope.h:62-69 | a successful lookup came from some table k that binds the name, with no table before k binding it |
| Scopes.DeclareLookup | scope.h:61 | after inserting a symbol into the innermost table, looking up that name gives the symbol, and every other name looks up as before |
| Scopes.OpenLookup | scope.h:53-55 | pushing a fresh, empty table changes no lookup |
| Scopes.OpenCloseRoundTrip | scope.h:53-60 | opening a table adds one to the depth, and closing it again restores the stack exactly |
| Scopes.SymbolTable.constructor | scope.h:31 | a new table has the given name and no bindings |
| Scopes.SymbolTable.Insert | scope.h:37 | the name now maps to the symbol, replacing any earlier binding, and no other binding changes |
| Scopes.SymbolTable.LookUp | scope.h:38-43 | returns a symbol exactly when the name is bound, and then it is the bound symbol |
| Scopes.Scope.constructor | scope.h:51 | a new scope holds no tables |
| Scopes.Scope.Depth | scope.h:52 | the depth is the number of tables on the stack |
| Scopes.Scope.InitializeScope | scope.h:53-55 | the contents become the old contents with a new, empty innermost table, and the older tables are the same objects |
| Scopes.Scope.FinalizeScope | scope.h:56-60 | the innermost table is dropped and the rest of the stack is untouched |
| Scopes.Scope.Insert | scope.h:61 | the symbol is declared in the innermost table (Declare) |
| Scopes.Scope.LookUp | scope.h:62-69 | the loop over the tables returns what the innermost-first Lookup of the whole stack returns |
| Scopes.Scope.SecurityContext | typecheck.cpp:217 | the context is the label of the innermost table |
| Ir.TypeOf | codegenVis.cpp:74-86 | "int", "double" and "bool" map to their LLVM types, and every other name maps to void |
| Ir.TypeName | typecheck.cpp:86-98 | each non-void type has a name that TypeOf maps back to it |
| Ir.ArithOpcode | codegenVis.cpp:203-209 | the opcode chosen for + - * / computes that operator |
| Ir.ComparePredicate | codegenVis.cpp:215-237 | the predicate chosen for a comparison computes that comparison, and it is an unordered float predicate exactly when the operands are doubles |
| TypeRules.SecurityLabel | typecheck.cpp:79-84 | an empty security annotation becomes "low", any other annotation is kept, and the result is never empty |
| TypeRules.JoinLabel | typecheck.cpp:176-179 | the label of a binary expression is high exactly when either operand is high, and "" otherwise |
| TypeRules.OperatorType | typecheck.cpp:181-203 | a binary operator types exactly when both operands are int64 or both are double; arithmetic keeps that type and a comparison gives bool |
| TypeRules.BranchContext | typecheck.cpp:217 | a branch's table is labelled "high" inside a high context and with the guard's label otherwise, so it is high exactly when the context or the guard is |
| TypeRules.AssignmentRule | typecheck.cpp:122-138 | an assignment passes exactly when it is not low-in-high-context, the types are equal and it is not low := high. The implicit-flow diagnostic is given exactly in the low-in-high-context case; otherwise unequal types give the type-mismatch diagnostic, and equal types with a low target and a high right side give the explicit-flow diagnostic |
| TypeRules.Check | typecheck.cpp:206-244 | checking a node only ever changes the innermost table: every table a branch opens is closed again |
| TypeRules.CheckAssignment | typecheck.cpp:111-139 | an assignment check changes at most the innermost table |
| TypeRules.CheckBlock | typecheck.cpp:252-267 | checking a statement list changes at most the innermost table |
| TypeRules.CheckProgram | typecheck.cpp:44-59 | after the program is checked under the global table, exactly one table is left |
| TypeRules.LeafRules | typecheck.cpp:61-109 | literals type as unlabelled int64/double/bool, a type annotation as its LLVM type and a security annotation by SecurityLabel. An identifier types exactly when declared, and then as its declared SType |
| TypeRules.CheckDiagnosed | typecheck.cpp:100-267 | a node fails to type exactly when at least one diagnostic was printed for it |
| TypeRules.AssignmentDiagnosed | typecheck.cpp:111-139 | an assignment fails exactly when it printed a diagnostic |
| TypeRules.BlockDiagnosed | typecheck.cpp:252-267 | a statement list fails exactly when it printed a diagnostic |
| TypeRules.CheckKeepsVisible | typecheck.cpp:141-167 | a binding visible before a node is checked is unchanged afterwards, because a declaration never overwrites a visible name |
| TypeRules.AssignmentKeepsVisible | typecheck.cpp:111-139 | an assignment check leaves every visible binding unchanged |
| TypeRules.BlockKeepsVisible | typecheck.cpp:252-267 | a statement-list check leaves every visible binding unchanged |
| TypeRules.HighContextConfinement | typecheck.cpp:122-126 | in a high context, a node that type-checks assigns no visible low variable |
| TypeRules.AssignmentConfinement | typecheck.cpp:122-126 | in a high context, a passing assignment's target and the targets inside its right side are not visible low variables |
| TypeRules.BlockConfinement | typecheck.cpp:252-267 | in a high context, a passing statement list assigns no visible low variable |
| TypeRules.HighGuardConfinement | typecheck.cpp:206-244 | when a passing if-expression has a high guard, neither branch assigns a visible low variable (no implicit flow) |
| TypeRules.ImplicitFlowRejected | typecheck.cpp:122-126 | assigning a low variable in a high context always fails. When the right side types, the implicit-flow diagnostic follows the right side's own diagnostics |
| TypeRules.PureKeepsScope | typecheck.cpp:169-175 | checking an expression without assignments or declarations leaves the scope unchanged |
| TypeRules.PureLabel | typecheck.cpp:176-179 | an expression whose label is not high reads only declared variables that are not high |
| TypeRules.ExplicitFlowSoundness | typecheck.cpp:131-137 | a passing assignment to a low variable whose right side is pure (built only from literals, annotations, identifiers and binary operators) reads no high variable (no explicit flow) |
| TypeRules.DeclarationRule | typecheck.cpp:141-167 | redeclaring a visible name fails with exactly one diagnostic and no change to the scope. A passing declaration is void, binds a name that was not visible, in the innermost table, with the declared type and label |
| TypeRules.BlockVoid | typecheck.cpp:252-267 | a statement list that types is void |
| TypeRules.BlockShift | typecheck.cpp:254-264 | checking the suffix of a concatenation from offset \|a\|+j is checking the second list from j |
| TypeRules.BlockConcat | typecheck.cpp:254-264 | checking a + b is checking a, then, if a passed, b in the resulting scope, with the diagnostics concatenated |
| TypeRules.ProgramVerdict | typecheck.cpp:44-59 | a program passes exactly when no diagnostic was printed |
| TypeCheck.CheckRoot | typecheck.cpp:44-59 | returns whether the root block types to void under a fresh global scope, and the diagnostics, as CheckProgram defines them |
| TypeCheck.TypeCheck | typecheck.cpp:61-109 | the dispatcher's SType, final scope and diagnostics are those of Check |
| TypeCheck.TypeCheckAssignment | typecheck.cpp:111-139 | result, scope and diagnostics equal CheckAssignment's |
| TypeCheck.TypeCheckVariableDeclaration | typecheck.cpp:141-167 | result, scope and diagnostics equal Check's for the declaration |
| TypeCheck.TypeCheckBinaryOperator | typecheck.cpp:169-204 | result, scope and diagnostics equal Check's for the operator |
| TypeCheck.TypeCheckBranch | typecheck.cpp:217-228 | checking a branch in its own table (high in a high context, the guard's label otherwise) equals Check under Open, followed by Close |
| TypeCheck.TypeCheckIf | typecheck.cpp:206-244 | result, scope and diagnostics equal Check's for the if-expression |
| TypeCheck.TypeCheckBlock | typecheck.cpp:252-267 | the loop's result, scope and diagnostics equal CheckBlock's for the whole list |
| TypeCheckVis.TypeCheckerVisitor.constructor | typecheckVis.cpp:17-21 | the visitor starts with the global table only, an empty type stack and an empty log |
| TypeCheckVis.TypeCheckerVisitor.Finalize | typecheckVis.cpp:23-27 | succeeds exactly when one table is left, and then closes it |
| TypeCheckVis.TypeCheckerVisitor.PrintErrorMessage | typecheckVis.cpp:40-51 | appends the diagnostic to the log and nothing else |
| TypeCheckVis.TypeCheckerVisitor.VisitSkip | typecheckVis.cpp:53-57 | pushes void |
| TypeCheckVis.TypeCheckerVisitor.VisitInteger | typecheckVis.cpp:59-63 | pushes unlabelled int64 |
| TypeCheckVis.TypeCheckerVisitor.VisitDouble | typecheckVis.cpp:65-69 | pushes unlabelled double |
| TypeCheckVis.TypeCheckerVisitor.VisitBool | typecheckVis.cpp:71-75 | pushes unlabelled bool |
| TypeCheckVis.TypeCheckerVisitor.VisitSecurity | typecheckVis.cpp:77-82 | rewrites an empty label to "low" and pushes a typeless entry carrying that label |
| TypeCheckVis.TypeCheckerVisitor.VisitType | typecheckVis.cpp:84-99 | pushes the LLVM type of the name, void for an unknown name |
| TypeCheckVis.TypeCheckerVisitor.VisitIdentifier | typecheckVis.cpp:101-112 | logs an undeclared-variable diagnostic exactly when the name is not bound, and pushes nothing |
| TypeCheckVis.TypeCheckerVisitor.VisitAssignment | typecheckVis.cpp:114-156 | an undeclared target stops the visit. Otherwise the right side's type is popped and the visit passes exactly when AssignmentRule accepts, logging its diagnostic if not |
| TypeCheckVis.TypeCheckerVisitor.VisitVariableDeclaration | typecheckVis.cpp:158-190 | a redeclaration stops the visit. Otherwise the label and the type entries are popped, and the name is declared with that type and label |
| TypeCheckVis.TypeCheckerVisitor.VisitBlock | typecheckVis.cpp:292-313 | entering opens a table, leaving closes it, and any other flag stops the visit |
| TypeCheckVis.DeclarationNode | typecheckVis.cpp:158-190 | the visits of a declaration without initializer (type, security, declaration) pass exactly when the recursive checker accepts the same node, leave the same scope and log the same diagnostics |
| TypeCheckVis.NestedDeclarations | typecheckVis.cpp:158-190 | on a new visitor, declaring `x`, entering a block and declaring a fresh `y` there succeed; declaring `x` again inside the block is refused as a redeclaration, the only diagnostic logged; leaving the block and tearing down then succeed |
| CodeGenVis.AllocatedLookup | codegenVis.cpp:121-131 | under the visitor's invariant, every visible variable's value is an alloca |
| CodeGenVis.AllocatedOpen | codegenVis.cpp:261-272 | opening a table keeps every binding an alloca |
| CodeGenVis.AllocatedClose | codegenVis.cpp:261-272 | closing a table keeps every binding an alloca |
| CodeGenVis.AllocatedDeclare | codegenVis.cpp:279-286 | declaring a variable bound to an alloca keeps every binding an alloca |
| CodeGenVis.LowerBinary | codegenVis.cpp:192-244 | the single value a binary operator is meant to produce: a binop computing the arithmetic operator, or a compare computing the comparison, float exactly when the left operand is a double |
| CodeGenVis.BinaryPushes | codegenVis.cpp:239-243 | as written: arithmetic pushes one value, while a comparison pushes its compare and then a second binop |
| CodeGenVis.ComparisonCounterexample | codegenVis.cpp:239-243 | for 1 < 2 the visit leaves two values, the top one a binop with no opcode |
| CodeGenVis.LowerBinaryTyped | codegenVis.cpp:192-244 | on operands of one type that the type checker accepts, the lowered value has exactly the type the checker gives the expression |
| CodeGenVis.BoolConstant | codegenVis.cpp:94-101 | "true" and "false", and only those, lower to the matching i1 constant |
| CodeGenVis.BoolVisit | codegenVis.cpp:94-101 | as written: the visit gets past its check exactly when the literal is "false" |
| CodeGenVis.BoolTrueCounterexample | codegenVis.cpp:97-99 | the literal true is pushed correctly and then stops the program |
| CodeGenVis.LiteralTypesAgree | codegenVis.cpp:88-107 | each literal's constant has the type the type checker gives the literal |
| CodeGenVis.CodeGenVisitor.constructor | codegenVis.cpp:25-41 | starts with the global table, an empty value stack and no instructions, inserting into an "entry" block of main |
| CodeGenVis.CodeGenVisitor.GenerateCode | codegenVis.cpp:43-58 | emits `ret i32 0` in the current block, succeeds exactly when one table is left and then closes it; on failure the scope is untouched, and the value stack and blocks never change |
| CodeGenVis.CodeGenVisitor.Emit | codegenVis.cpp:240 | appends one instruction to the current insert block and changes nothing else |
| CodeGenVis.CodeGenVisitor.VisitInteger | codegenVis.cpp:88-92 | pushes the 64-bit constant |
| CodeGenVis.CodeGenVisitor.VisitDouble | codegenVis.cpp:103-107 | pushes the double constant |
| CodeGenVis.CodeGenVisitor.VisitBool | codegenVis.cpp:94-101 | does what BoolVisit says: pushes, and succeeds only for "false" |
| CodeGenVis.CodeGenVisitor.VisitType | codegenVis.cpp:109-113 | changes nothing |
| CodeGenVis.CodeGenVisitor.VisitSecurity | codegenVis.cpp:115-119 | changes nothing |
| CodeGenVis.CodeGenVisitor.VisitExpressionStatement | codegenVis.cpp:274-277 | changes nothing |
| CodeGenVis.CodeGenVisitor.VisitIdentifier | codegenVis.cpp:121-131 | a declared name emits and pushes a load from its alloca. An undeclared name stops the visit |
| CodeGenVis.CodeGenVisitor.VisitAssignment | codegenVis.cpp:246-259 | pops the right side. For a declared target it emits and pushes a store of that value into the target's alloca; an undeclared target stops the visit |
| CodeGenVis.CodeGenVisitor.VisitVariableDeclaration | codegenVis.cpp:279-286 | emits an alloca of the declared type, named after the variable, and binds the name to it with an empty SType |
| CodeGenVis.CodeGenVisitor.VisitBinaryOperator | codegenVis.cpp:192-244 | pops both operands, and pushes and emits what BinaryPushes says, in the source's order |
| CodeGenVis.CodeGenVisitor.VisitIfExpression | codegenVis.cpp:133-190 | pops guard, then and else. It appends blocks if.then, if.else and if.end, emits a conditional branch on the guard and a branch to if.end from each arm, and continues in if.end |
| CodeGenVis.CodeGenVisitor.VisitBlock | codegenVis.cpp:261-272 | alternately opens and closes a table, keeping every binding an alloca |

## Left out

- The LLVM library itself is left out: contexts, modules, functions, `verifyFunction`, `dump` and the bitcode writer. Types become `Ir.IrType`, values become the `Ir.Value` tree, and a function's body becomes the trace of `Placed` instructions. `runCode` (codegenVis.cpp:61-71) JIT-executes the module and is left out as foreign code.
- Verbose printing, `setFileName` (which reads the source file) and the file name and line number in diagnostics are I/O and are left out. A diagnostic is the `Diag` value that says which message was printed.
- TypeCheck: diagnostics are returned as a sequence rather than written to standard error. Their order is preserved.
- Integer literals are unbounded integers; the 64-bit truncation of `ConstantInt::get` is not modelled. A double literal's payload is not modelled (`NDouble`, `ConstDouble`).
- TypeCheckVis: the binary-operator, if-expression and expression-statement visits (typecheckVis.cpp:192-290) are left out. They call the recursive `typeCheck` on their children, whose diagnostics go to the global checker rather than to this visitor's log, and they push nothing onto the type stack. As written they also differ from `TypeCheck.TypeCheck`:
  - The binary visit's switch (typecheckVis.cpp:206-233) has no `return` or `break`, so every operator falls through to `default:` and reports a type mismatch, even for well-typed operands.
  - The binary visit reads both operands' labels (typecheckVis.cpp:202) even when one of them is NULL.
  - When a branch is not void, the if visit calls `FinalizeScope` twice (typecheckVis.cpp:260 and 264, 275 and 279), which also pops the enclosing table.
  - When a branch has no type, the if visit closes its table once (typecheckVis.cpp:254, 269) and then dereferences the NULL result (258, 273).
  - A guard with no type is dereferenced (typecheckVis.cpp:244) before any table is opened.
- TypeCheckVis.TypeCheckerVisitor.VisitBlock: the static size counters it prints are output only and are left out.
- TypeCheckVis.TypeCheckerVisitor.VisitSecurity, TypeRules.Check and TypeCheck.TypeCheck: both checkers rewrite an empty `NSecurity` name to "low" in the AST node itself (typecheckVis.cpp:80, typecheck.cpp:82). The model does not change the AST, which is an immutable value here: the visitor returns the rewritten name, and the recursive checker only uses it in the SType it returns.
- TypeRules.Check and TypeCheck.TypeCheck: typecheck.cpp defines no `typeCheck` for `NSkip`. The model types a skip as void with no label, the rule the visitor checker uses (typecheckVis.cpp:56).
- TypeCheckVis and CodeGenVis: a failed `assert` and a NULL dereference stop the program. The model returns `ok == false` with the state at that point.
- The source tests popped entries and symbols for NULL. Entries are never NULL in the model, so those branches are absent.
- TypeCheckVis.TypeCheckerVisitor.VisitAssignment, VisitVariableDeclaration and CodeGenVis.CodeGenVisitor.VisitBinaryOperator, VisitAssignment, VisitIfExpression: each requires that the stack hold as many entries as it pops. `front()` on an empty list is undefined behaviour in the source.
- The order in which the visitors are called (the `accept` methods of the visitor framework) is not part of this model. Each visit is modelled as an operation on the visitor's state.
- CodeGenVis.CodeGenVisitor.VisitIfExpression: the PHI-related `GetInsertBlock` re-reads do not change what is emitted and are left out.
- The parser, the AST-printing and graph back ends, the older recursive code generator and the driver are not part of this model.

## Findings

| source | as written | input that shows it | evidently intended | confidence | as-written member | corrected member |
|---|---|---|---|---|---|---|
| codegenVis.cpp:97-100 | "true" pushes the constant true and then asserts that the literal is "false", so the program stops | the literal `true` | push the constant matching the literal and continue | not executed | CodeGenVis.BoolVisit | CodeGenVis.BoolConstant |
| codegenVis.cpp:239-243 | after the compare is pushed at `comp:`, control falls through into `math:` and pushes a second binary operator whose opcode was never assigned | the expression `1 < 2` | push exactly the compare | not executed | CodeGenVis.BinaryPushes | CodeGenVis.LowerBinary |
