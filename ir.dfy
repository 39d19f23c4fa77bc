/** The fragment of the Kotlin/Native backend IR that the lateinit lowering reads and writes.
    Types are reduced to the one fact the pass asks of them (primitive or not); source offsets
    and builder state are not modelled. */
module Ir {

  datatype Option<+T> = None | Some(value: T)

  /** Compiler-internal invariant violations: each aborts the compilation of the file. */
  datatype Fatal =
    | LateinitWithInitializer      // assertion: a lateinit declaration has no initializer
    | LateinitPrimitiveType        // assertion: a lateinit declaration has a reference type
    | NotAPropertyReference        // `!!` / `as IrPropertyReference` on the isInitialized receiver
    | LateinitExtensionProperty    // assertion: the referenced property has no extension receiver
    | MissingBackingField          // `backingField!!` on a lateinit property
    | MissingGetter                // `getter!!` on a lateinit property
    | NoUniqueIsInitialized        // `single { ... }` found zero or several candidates
    | MissingIsInitializedGetter   // `getter!!` on the resolved isInitialized property
    | ArgumentIndexOutOfRange      // `putValueArgument(0, ...)` on a callee without parameters

  datatype Result<+T> = Ok(value: T) | Err(error: Fatal) {
    predicate IsFailure() { Err? }
    function PropagateFailure<U>(): Result<U> requires Err? { Err(error) }
    function Extract(): T requires Ok? { value }
  }

  /** The descriptor behind a value symbol: a variable (local or parameter) or something
      else that can be read, such as a dispatch receiver parameter. */
  datatype ValueDescriptor =
    | VariableDescriptor(name: string, isLateInit: bool, isPrimitive: bool)
    | ReceiverDescriptor(name: string)

  /** A reference to a value declaration; several symbols may share one declaration. */
  datatype Symbol = Symbol(id: nat, descriptor: ValueDescriptor)

  /** A property descriptor. The backing field of a property is identified by the same
      descriptor, so a field read names the property it belongs to. */
  datatype PropertyDescriptor =
    PropertyDescriptor(id: nat, name: string, isLateInit: bool, isReal: bool, isPrimitive: bool)

  /** A function symbol with the number of value parameters its calls have slots for. */
  datatype FunctionSymbol = FunctionSymbol(id: nat, valueParameterCount: nat)

  datatype Constant = Null | Str(s: string)

  datatype Expr =
    | Const(constant: Constant)
    | GetValue(symbol: Symbol)
    | SetValue(symbol: Symbol, value: Expr)
    | Call(callee: FunctionSymbol, dispatchReceiver: Option<Expr>, extensionReceiver: Option<Expr>,
           arguments: seq<Option<Expr>>)
    | PropertyReference(property: PropertyDescriptor, dispatchReceiver: Option<Expr>,
                        extensionReceiver: Option<Expr>)
    | GetField(field: PropertyDescriptor, receiver: Option<Expr>)
    | EqualsNull(operand: Expr)
    | NotEquals(left: Expr, right: Expr)
    | If(condition: Expr, thenBranch: Expr, elseBranch: Option<Expr>)
    | Block(statements: seq<Stmt>)
    | Return(result: Expr)

  /** A statement of a block: an expression, or a local variable declaration. */
  datatype Stmt =
    | ExprStmt(expr: Expr)
    | VarStmt(variable: Variable)

  datatype Variable = Variable(symbol: Symbol, initializer: Option<Expr>)

  /** The descriptor test `symbol.descriptor as? VariableDescriptor` followed by `isLateInit`. */
  predicate IsLateinitVariable(s: Symbol)
  {
    s.descriptor.VariableDescriptor? && s.descriptor.isLateInit
  }
}
