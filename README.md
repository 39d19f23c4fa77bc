# Lateinit lowering, modelled in Dafny

This project models the Kotlin/Native backend pass `LateinitLowering`. The pass removes the
`lateinit` modifier from the IR of one file by rewriting it into plain code:

- **Local variables.** A `lateinit` local variable gets the null constant as its initializer.
  It must have had no initializer and must not be of a primitive type.
- **Reads of lateinit locals.** Every read of a `lateinit` local becomes a checked read,
  `{ if (x == null) throw(...); x }`.
- **`isInitialized` queries.** Every call to the `isInitialized` getter on a property reference
  `::p` becomes a direct read of `p`'s backing field, compared with null.
- **Lateinit properties.** A real `lateinit` property gets a getter body that reads the backing
  field once into a temporary. The getter returns the temporary when it is non-null and
  otherwise calls the runtime throw helper. The backing field's initializer becomes null.
- **The throw helper.** It is called with no arguments, or, when the pass is configured with
  `generateParameterNameInAssertion`, with the declaration's name in argument slot 0.

The model has six modules:

- `Ir` (`ir.dfy`): the IR fragment the pass touches, as datatypes, and the fatal errors it can
  stop with.
- `Lowering` (`lowering.dfy`): the rewrite rules as functions.
  - Resolving the `isInitialized` getter (`single { … }.getter!!`).
  - The throw-helper call builder.
  - The rules `visitVariable`, `visitGetValue` and `visitCall`, and the getter body of
    `transformGetter`.
  - The bottom-up traversal that applies them; every child is lowered before its parent.
  - Each Kotlin `assert`, `!!` or failed cast in the pass is an `Err` value the traversal
    propagates.
- `Semantics` (`semantics.dfy`): an evaluator for the fragment at two levels.
  - `Source` gives lateinit declarations their language meaning: reading an unassigned
    lateinit local raises the uninitialized-access error, and `::p.isInitialized` tests the
    backing field.
  - `Lowered` runs the rewritten code, where only the throw helper raises.
  - A call to any other function yields a value chosen per callee.
  - Field reads are recorded in a trace.
- `Correctness` (`correctness.dfy`): each synthesized shape behaves as the construct it replaces.
  The main theorem `LowerExprCorrect` states that lowering preserves evaluation. That covers the
  value, the error and its message, the locals, and the order and number of field reads.
- `Structure` (`structure.dfy`): which calls survive lowering, and that a tree with nothing
  lateinit in it comes back unchanged.
- `Declarations` (`declarations.dfy`): the part of the pass that updates objects in place.
  - Backing fields and functions are classes whose `initializer` and `body` fields the methods
    reassign.
  - `visitProperty` and `transformGetter` are methods over them.
  - The file driver visits every declaration once.
- `Scenarios` (`scenarios.dfy`): end-to-end facts about the shapes programs use.

Source cells in the table below are paths relative to the repository root.

## Model

| member | source | states |
|---|---|---|
| Lowering.MatchingCandidates | backend.native/compiler/ir/backend.native/src/org/jetbrains/kotlin/backend/konan/lower/LateinitLowering.kt:51-54 | the candidates kept are exactly those whose extension receiver's class is `KProperty0`, each kept as many times as it occurs, so `single` sees the true number of matches |
| Lowering.ResolveIsInitializedGetter | backend.native/compiler/ir/backend.native/src/org/jetbrains/kotlin/backend/konan/lower/LateinitLowering.kt:49-55 | with no matching candidate resolution fails; a resolved getter is the getter of a matching candidate |
| Lowering.MatchingSingleton | backend.native/compiler/ir/backend.native/src/org/jetbrains/kotlin/backend/konan/lower/LateinitLowering.kt:51-54 | exactly one candidate is kept iff exactly one candidate matches, and then the kept list is that candidate |
| Lowering.ResolveIsInitializedGetterIsUnique | backend.native/compiler/ir/backend.native/src/org/jetbrains/kotlin/backend/konan/lower/LateinitLowering.kt:49-55 | resolution yields `g` iff exactly one candidate extends `KProperty0` and its getter is `g` (`single` and `!!` both succeed) |
| Lowering.NewPass | backend.native/compiler/ir/backend.native/src/org/jetbrains/kotlin/backend/konan/lower/LateinitLowering.kt:44-55 | constructing the pass succeeds iff the getter resolves; the pass keeps the flag and the throw helper and holds a matching candidate's getter |
| Lowering.ThrowUninitializedPropertyAccessException | backend.native/compiler/ir/backend.native/src/org/jetbrains/kotlin/backend/konan/lower/LateinitLowering.kt:156-171 | the throw call targets the throw helper with no receivers and one slot per parameter; it carries the name in slot 0 iff the flag is set, leaves every other slot empty, and fails only when the flag is set and the helper has no parameter |
| Lowering.LowerGetValue | backend.native/compiler/ir/backend.native/src/org/jetbrains/kotlin/backend/konan/lower/LateinitLowering.kt:74-90 | a read of a non-lateinit value is kept; a lateinit read of a primitive type is an error; otherwise it becomes the two-statement block "if null, throw naming the variable", then the read |
| Lowering.LowerIsInitializedCall | backend.native/compiler/ir/backend.native/src/org/jetbrains/kotlin/backend/konan/lower/LateinitLowering.kt:95-114 | succeeds iff the extension receiver is a non-extension, non-primitive property reference; a non-reference is `NotAPropertyReference`; the result is "backing field read through the reference's dispatch receiver != null" |
| Lowering.LowerCall | backend.native/compiler/ir/backend.native/src/org/jetbrains/kotlin/backend/konan/lower/LateinitLowering.kt:92-115 | a call to any other function is returned unchanged; a call to the `isInitialized` getter gets the query rewrite |
| Lowering.LowerVariable | backend.native/compiler/ir/backend.native/src/org/jetbrains/kotlin/backend/konan/lower/LateinitLowering.kt:60-72 | errors in the initializer propagate; a non-lateinit variable keeps its lowered initializer; a lateinit one lowers iff it has no initializer and a reference type, and then gets the null initializer; an initializer is reported before a primitive type |
| Lowering.LowerExpr | backend.native/compiler/ir/backend.native/src/org/jetbrains/kotlin/backend/konan/lower/LateinitLowering.kt:92-96 | the traversal keeps a call to any function other than the `isInitialized` getter a call to the same callee with as many argument slots, and keeps a block a block with as many statements |
| Lowering.LowerOptional | backend.native/compiler/ir/backend.native/src/org/jetbrains/kotlin/backend/konan/lower/LateinitLowering.kt:118-126 | lowering an optional child neither adds nor removes it, so the initializer check after the children are lowered sees the original presence |
| Lowering.LowerArguments | backend.native/compiler/ir/backend.native/src/org/jetbrains/kotlin/backend/konan/lower/LateinitLowering.kt:93 | the argument slots lower iff every slot lowers; the result is the slot-by-slot lowering, and a failure reports the first failing slot's error |
| Lowering.LowerStmts | backend.native/compiler/ir/backend.native/src/org/jetbrains/kotlin/backend/konan/lower/LateinitLowering.kt:57-61 | a statement sequence lowers iff every statement lowers; the result is the statement-by-statement lowering, and a failure reports the first failing statement's error |
| Lowering.LowerStmt | backend.native/compiler/ir/backend.native/src/org/jetbrains/kotlin/backend/konan/lower/LateinitLowering.kt:60-72 | a statement keeps its kind, and a variable declaration keeps its symbol |
| Lowering.TemporaryId | backend.native/compiler/ir/backend.native/src/org/jetbrains/kotlin/backend/konan/lower/LateinitLowering.kt:141-143 | the getter's temporary never shares the dispatch receiver parameter's identity |
| Lowering.GetterBody | backend.native/compiler/ir/backend.native/src/org/jetbrains/kotlin/backend/konan/lower/LateinitLowering.kt:135-152 | the checked getter body can be built iff the field is not primitive and the throw call can be built; a primitive field is `LateinitPrimitiveType` |
| Correctness.EmptySlotsEvaluate | backend.native/compiler/ir/backend.native/src/org/jetbrains/kotlin/backend/konan/lower/LateinitLowering.kt:157 | argument slots that were never filled evaluate to unit values without effect |
| Correctness.ThrowCallRaises | backend.native/compiler/ir/backend.native/src/org/jetbrains/kotlin/backend/konan/lower/LateinitLowering.kt:156-169 | the throw call raises the uninitialized-access error, carrying the name exactly when the flag is set, and changes nothing else |
| Correctness.CheckedReadSemantics | backend.native/compiler/ir/backend.native/src/org/jetbrains/kotlin/backend/konan/lower/LateinitLowering.kt:79-88 | the checked read raises iff the local holds null, with the expected message; otherwise it yields the stored value; the state is unchanged |
| Correctness.GetterBodySemantics | backend.native/compiler/ir/backend.native/src/org/jetbrains/kotlin/backend/konan/lower/LateinitLowering.kt:135-152 | the new getter reads its backing field exactly once; it returns the value read when non-null and raises the error naming the property otherwise |
| Correctness.IsInitializedSemantics | backend.native/compiler/ir/backend.native/src/org/jetbrains/kotlin/backend/konan/lower/LateinitLowering.kt:107-113 | the rewritten query evaluates the receiver, reads the field once and yields whether it is non-null |
| Correctness.LoweredPropertyReference | backend.native/compiler/ir/backend.native/src/org/jetbrains/kotlin/backend/konan/lower/LateinitLowering.kt:93-101 | a lowered property reference comes from a property reference to the same property, with its receivers lowered |
| Correctness.LowerExprCorrect | backend.native/compiler/ir/backend.native/src/org/jetbrains/kotlin/backend/konan/lower/LateinitLowering.kt:57-153 | whenever lowering succeeds, the lowered expression evaluates exactly as the original under lateinit semantics: same outcome, message, locals and field-read trace |
| Correctness.LowerCallCorrect | backend.native/compiler/ir/backend.native/src/org/jetbrains/kotlin/backend/konan/lower/LateinitLowering.kt:92-115 | a lowered call, including the rewritten `isInitialized` query, evaluates as the original call |
| Correctness.ReadFieldCorrect | backend.native/compiler/ir/backend.native/src/org/jetbrains/kotlin/backend/konan/lower/LateinitLowering.kt:107-112 | reading a field through a lowered receiver is the same as reading it through the original |
| Correctness.LowerOptionalCorrect | backend.native/compiler/ir/backend.native/src/org/jetbrains/kotlin/backend/konan/lower/LateinitLowering.kt:58 | an optional child evaluates the same before and after lowering |
| Correctness.LowerArgumentsCorrect | backend.native/compiler/ir/backend.native/src/org/jetbrains/kotlin/backend/konan/lower/LateinitLowering.kt:93 | the argument list evaluates the same, in the same order, before and after lowering |
| Correctness.LowerStmtsCorrect | backend.native/compiler/ir/backend.native/src/org/jetbrains/kotlin/backend/konan/lower/LateinitLowering.kt:58 | a lowered statement sequence evaluates as the original one |
| Correctness.LowerStmtCorrect | backend.native/compiler/ir/backend.native/src/org/jetbrains/kotlin/backend/konan/lower/LateinitLowering.kt:60-72 | a lowered statement, including a lateinit declaration now initialized to null, evaluates as the original one |
| Structure.LoweringCallees | backend.native/compiler/ir/backend.native/src/org/jetbrains/kotlin/backend/konan/lower/LateinitLowering.kt:57-153 | the lowered tree calls only functions the original called, other than the `isInitialized` getter, plus the throw helper |
| Structure.ThrowCallCallees | backend.native/compiler/ir/backend.native/src/org/jetbrains/kotlin/backend/konan/lower/LateinitLowering.kt:156-169 | the throw call calls the throw helper and nothing else |
| Structure.ConstantArgumentCallees | backend.native/compiler/ir/backend.native/src/org/jetbrains/kotlin/backend/konan/lower/LateinitLowering.kt:159-167 | argument slots holding only constants call nothing |
| Structure.OptionalLoweringCallees | backend.native/compiler/ir/backend.native/src/org/jetbrains/kotlin/backend/konan/lower/LateinitLowering.kt:58 | the callee bound of `LoweringCallees`, for an optional child |
| Structure.ArgumentLoweringCallees | backend.native/compiler/ir/backend.native/src/org/jetbrains/kotlin/backend/konan/lower/LateinitLowering.kt:93 | the callee bound of `LoweringCallees`, for an argument list |
| Structure.StmtsLoweringCallees | backend.native/compiler/ir/backend.native/src/org/jetbrains/kotlin/backend/konan/lower/LateinitLowering.kt:58 | the callee bound of `LoweringCallees`, for a statement sequence |
| Structure.StmtLoweringCallees | backend.native/compiler/ir/backend.native/src/org/jetbrains/kotlin/backend/konan/lower/LateinitLowering.kt:60-72 | the callee bound of `LoweringCallees`, for one statement |
| Structure.IsInitializedCallsEliminated | backend.native/compiler/ir/backend.native/src/org/jetbrains/kotlin/backend/konan/lower/LateinitLowering.kt:92-115 | no call to the `isInitialized` getter survives lowering |
| Structure.LoweringIdentity | backend.native/compiler/ir/backend.native/src/org/jetbrains/kotlin/backend/konan/lower/LateinitLowering.kt:60-115 | a tree with no lateinit declaration or read and no `isInitialized` call lowers to itself |
| Structure.OptionalLoweringIdentity | backend.native/compiler/ir/backend.native/src/org/jetbrains/kotlin/backend/konan/lower/LateinitLowering.kt:58 | `LoweringIdentity` for an optional child |
| Structure.ArgumentLoweringIdentity | backend.native/compiler/ir/backend.native/src/org/jetbrains/kotlin/backend/konan/lower/LateinitLowering.kt:93 | `LoweringIdentity` for an argument list |
| Structure.StmtsLoweringIdentity | backend.native/compiler/ir/backend.native/src/org/jetbrains/kotlin/backend/konan/lower/LateinitLowering.kt:58 | `LoweringIdentity` for a statement sequence |
| Structure.StmtLoweringIdentity | backend.native/compiler/ir/backend.native/src/org/jetbrains/kotlin/backend/konan/lower/LateinitLowering.kt:64 | `LoweringIdentity` for one statement |
| Declarations.IrField.constructor | backend.native/compiler/ir/backend.native/src/org/jetbrains/kotlin/backend/konan/lower/LateinitLowering.kt:123 | a backing field holds its descriptor and initializer |
| Declarations.IrFunction.constructor | backend.native/compiler/ir/backend.native/src/org/jetbrains/kotlin/backend/konan/lower/LateinitLowering.kt:135 | a function holds its symbol, dispatch receiver parameter and body |
| Declarations.LowerFunctionBody | backend.native/compiler/ir/backend.native/src/org/jetbrains/kotlin/backend/konan/lower/LateinitLowering.kt:118 | a function body is replaced by its lowering when that succeeds; otherwise the visit fails with the lowering's error |
| Declarations.LowerFieldInitializer | backend.native/compiler/ir/backend.native/src/org/jetbrains/kotlin/backend/konan/lower/LateinitLowering.kt:118 | a backing field initializer is replaced by its lowering when that succeeds; otherwise the visit fails with the lowering's error |
| Declarations.TransformGetter | backend.native/compiler/ir/backend.native/src/org/jetbrains/kotlin/backend/konan/lower/LateinitLowering.kt:135-152 | the getter's body becomes the checked field read, or stays as it was on a primitive field or an unbuildable throw call |
| Declarations.VisitProperty | backend.native/compiler/ir/backend.native/src/org/jetbrains/kotlin/backend/konan/lower/LateinitLowering.kt:117-133 | succeeds iff every child lowers and, for a real lateinit property, the backing field and getter exist, the getter can be built and the field had no initializer; afterwards the children are lowered, a lateinit property's getter is the checked read and its field's initializer is null; a missing backing field or getter is reported as such |
| Declarations.VisitDeclaration | backend.native/compiler/ir/backend.native/src/org/jetbrains/kotlin/backend/konan/lower/LateinitLowering.kt:58 | one file-level declaration is visited: a function's body is lowered, a property is visited as above |
| Declarations.Lower | backend.native/compiler/ir/backend.native/src/org/jetbrains/kotlin/backend/konan/lower/LateinitLowering.kt:57-58 | the file lowers iff every declaration lowers from its state before the pass; then every declaration ends in its lowered state |
| Scenarios.LateinitLocalLowers | backend.native/compiler/ir/backend.native/src/org/jetbrains/kotlin/backend/konan/lower/LateinitLowering.kt:60-72 | a lateinit local's declaration lowers to the same declaration initialized to null, ahead of the rest of the lowered block |
| Scenarios.ReadBeforeWriteRaises | backend.native/compiler/ir/backend.native/src/org/jetbrains/kotlin/backend/konan/lower/LateinitLowering.kt:60-90 | `{ lateinit var x; x }` lowers, and the lowered block raises the uninitialized-access error naming `x` exactly when the flag is set |
| Scenarios.ReadAfterWriteYields | backend.native/compiler/ir/backend.native/src/org/jetbrains/kotlin/backend/konan/lower/LateinitLowering.kt:60-90 | `{ lateinit var x; x = s; x }` lowers, and the lowered block yields `s` |
| Scenarios.CallThenReadRaises | backend.native/compiler/ir/backend.native/src/org/jetbrains/kotlin/backend/konan/lower/LateinitLowering.kt:74-90 | `{ lateinit var x; f(); x }` lowers, and the lowered block still raises the uninitialized-access error: a call to an ordinary function does not affect the check |
| Scenarios.IsInitializedAgreesWithGetter | backend.native/compiler/ir/backend.native/src/org/jetbrains/kotlin/backend/konan/lower/LateinitLowering.kt:92-152 | `::p.isInitialized` lowers and is true exactly when `p`'s new getter returns instead of raising; both read the backing field once |

## Left out

- Kotlin `assert`s are modelled as always enabled. Each failing one, each `!!` on null and each failed cast is a fatal `Err` that stops the file. On a JVM without `-ea` the asserts at lines 66, 67, 79, 99, 104, 126 and 137 would be skipped.
- Descriptor lookup in the `kotlin` package scope is abstracted. The contributed `isInitialized` properties are a list of candidates, each with the class of its extension receiver type and its getter.
- The context's symbol table is abstracted the same way. The throw helper is a parameter of the pass.
- Types are reduced to an `isPrimitive` flag on each descriptor. Nullability and the `Nothing` type of the getter's `if` are not modelled.
- The builders, source offsets, scopes and `createIrBuilder` are not modelled. The IR they produce is modelled directly.
- Local variables and all expressions are values. `visitVariable` changes an `IrVariable` in place; the model instead returns the rebuilt declaration. So aliasing between IR nodes is not captured. Backing fields and functions are objects that are updated in place.
- Classes and nested declarations are flattened. A file is a sequence of functions and properties. A property's accessors are visited only through the property.
- A call to a function other than the throw helper and the `isInitialized` getter evaluates its receivers and arguments in order and then yields a value that depends on the callee only (the `results` parameter of the evaluator). Its body is not run, so it changes no local or field. The theorems therefore do not cover a callee that itself reads a lateinit declaration. What the runtime throw helper does is modelled as raising an error whose message is its first argument.
- Lowering.TemporaryId: the temporary's identity is chosen to differ from the getter's receiver parameter. The fresh-name generation of `irTemporary` is not modelled.
- Declarations.LowerFunctionBody and Declarations.LowerFieldInitializer: on a failure the model promises only the error. The Kotlin pass has by then already replaced some children in place (a lateinit local's initializer at line 69, the children transformed at lines 61, 93 and 118). The model computes the lowering as a value and assigns it only on success, so it does not capture those partial updates.
- Structure.LoweringCallees: comparisons with null and `!=` are their own node kinds in the model. In Kotlin's IR the builders at lines 84, 113 and 146 emit them as calls to built-in operators, which the callee bound does not list.
- Declarations.Lower: a failed file is reported as `Aborted`. The partial updates made before the failure are left unspecified, because the compiler stops on that error.
- Correctness.IsInitializedSemantics: stated for the lowered query alone. Its agreement with the source-level query comes from `LowerExprCorrect` and `Scenarios.IsInitializedAgreesWithGetter`.

The model follows the order of the Kotlin code: the getter is rewritten (line 124) before the backing field's initializer is checked (line 126), so a property with an initializer has its getter replaced before the error.
