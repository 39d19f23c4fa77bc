/** A small evaluator for the IR fragment, at two levels:
    - `Source`: the meaning the front end gives lateinit declarations — a lateinit local is
      bound to the "uninitialized" null sentinel, reading it while it holds null raises the
      uninitialized-access error, and `::p.isInitialized` tests whether the backing field of
      `p` is non-null;
    - `Lowered`: what the lowered program does — every read is a plain read, and only the
      runtime throw helper raises.
    Field reads are recorded in a trace, so the number of times a field is read (and a
    receiver evaluated) is observable. A call to any other function evaluates its receivers
    and arguments in order and then yields the value `results` gives for the callee. */
module Semantics {
  import opened Ir
  import opened Lowering

  datatype Value = Unit | NullValue | StrValue(s: string) | BoolValue(b: bool) | Ref(obj: nat)

  /** A field slot: the object that owns it (None for a field without a receiver) and the
      property it backs. */
  datatype FieldKey = FieldKey(owner: Option<nat>, field: nat)

  type Heap = map<FieldKey, Value>

  /** The value a call to a function outside the pass returns. Such a call has no effect on
      locals or fields; its value depends on the callee only. */
  type CallResults = FunctionSymbol -> Value

  datatype State = State(locals: map<nat, Value>, trace: seq<FieldKey>)

  datatype Outcome =
    | Normal(value: Value, state: State)
    | Returned(value: Value, state: State)
    | Raised(message: Option<string>, state: State)
    | Stuck

  /** The outcome of evaluating value-argument slots in order; an empty slot yields `Unit`. */
  datatype ArgumentsOutcome = Evaluated(values: seq<Value>, state: State) | Abrupt(outcome: Outcome)

  datatype Level = Source | Lowered

  /** The message of the uninitialized-access error for a declaration named `name`. */
  function ExpectedMessage(pass: Pass, name: string): Option<string>
  {
    if pass.generateParameterNameInAssertion then Some(name) else None
  }

  /** The message the throw helper raises with: its first argument, when that is a string. */
  function MessageOf(values: seq<Value>): Option<string>
  {
    if |values| > 0 && values[0].StrValue? then Some(values[0].s) else None
  }

  function Load(heap: Heap, key: FieldKey, st: State): Outcome
  {
    if key in heap then Normal(heap[key], st.(trace := st.trace + [key])) else Stuck
  }

  function Eval(level: Level, pass: Pass, heap: Heap, results: CallResults, e: Expr, st: State): Outcome
    decreases e
  {
    match e
    case Const(Null) => Normal(NullValue, st)
    case Const(Str(s)) => Normal(StrValue(s), st)
    case GetValue(s) =>
      if s.id !in st.locals then Stuck
      else if level == Source && IsLateinitVariable(s) && st.locals[s.id] == NullValue
      then Raised(ExpectedMessage(pass, s.descriptor.name), st)
      else Normal(st.locals[s.id], st)
    case SetValue(s, value) =>
      var o := Eval(level, pass, heap, results, value, st);
      if !o.Normal? then o
      else Normal(Unit, o.state.(locals := o.state.locals[s.id := o.value]))
    case Call(callee, dispatchReceiver, extensionReceiver, arguments) =>
      if level == Source && callee == pass.isInitializedGetter then
        match extensionReceiver
        case Some(PropertyReference(property, propertyReceiver, None)) =>
          var o := ReadField(level, pass, heap, results, property, propertyReceiver, st);
          if !o.Normal? then o else Normal(BoolValue(o.value != NullValue), o.state)
        case _ => Stuck
      else
        var o1 := EvalOptional(level, pass, heap, results, dispatchReceiver, st);
        if !o1.Normal? then o1
        else
          var o2 := EvalOptional(level, pass, heap, results, extensionReceiver, o1.state);
          if !o2.Normal? then o2
          else
            var o3 := EvalArguments(level, pass, heap, results, arguments, o2.state);
            if o3.Abrupt? then o3.outcome
            else if callee == pass.throwErrorFunction then Raised(MessageOf(o3.values), o3.state)
            else Normal(results(callee), o3.state)
    case PropertyReference(_, _, _) => Stuck
    case GetField(field, receiver) => ReadField(level, pass, heap, results, field, receiver, st)
    case EqualsNull(operand) =>
      var o := Eval(level, pass, heap, results, operand, st);
      if !o.Normal? then o else Normal(BoolValue(o.value == NullValue), o.state)
    case NotEquals(left, right) =>
      var o1 := Eval(level, pass, heap, results, left, st);
      if !o1.Normal? then o1
      else
        var o2 := Eval(level, pass, heap, results, right, o1.state);
        if !o2.Normal? then o2 else Normal(BoolValue(o1.value != o2.value), o2.state)
    case If(condition, thenBranch, elseBranch) =>
      var o := Eval(level, pass, heap, results, condition, st);
      if !o.Normal? then o
      else if !o.value.BoolValue? then Stuck
      else if o.value.b then Eval(level, pass, heap, results, thenBranch, o.state)
      else EvalOptional(level, pass, heap, results, elseBranch, o.state)
    case Block(statements) => EvalStmts(level, pass, heap, results, statements, st)
    case Return(result) =>
      var o := Eval(level, pass, heap, results, result, st);
      if !o.Normal? then o else Returned(o.value, o.state)
  }

  /** Reads the field backing `field`, through the receiver when there is one. */
  function ReadField(level: Level, pass: Pass, heap: Heap, results: CallResults, field: PropertyDescriptor,
                     receiver: Option<Expr>, st: State): Outcome
    decreases receiver
  {
    match receiver
    case None => Load(heap, FieldKey(None, field.id), st)
    case Some(r) =>
      var o := Eval(level, pass, heap, results, r, st);
      if !o.Normal? then o
      else if !o.value.Ref? then Stuck
      else Load(heap, FieldKey(Some(o.value.obj), field.id), o.state)
  }

  function EvalOptional(level: Level, pass: Pass, heap: Heap, results: CallResults, e: Option<Expr>, st: State): Outcome
    decreases e
  {
    match e
    case None => Normal(Unit, st)
    case Some(x) => Eval(level, pass, heap, results, x, st)
  }

  function EvalArguments(level: Level, pass: Pass, heap: Heap, results: CallResults, arguments: seq<Option<Expr>>, st: State): ArgumentsOutcome
    decreases arguments
  {
    if arguments == [] then Evaluated([], st)
    else
      var o := EvalOptional(level, pass, heap, results, arguments[0], st);
      if !o.Normal? then Abrupt(o)
      else
        var rest := EvalArguments(level, pass, heap, results, arguments[1..], o.state);
        if rest.Abrupt? then rest else Evaluated([o.value] + rest.values, rest.state)
  }

  /** A block's value is the value of its last statement. */
  function EvalStmts(level: Level, pass: Pass, heap: Heap, results: CallResults, statements: seq<Stmt>, st: State): Outcome
    decreases statements
  {
    if statements == [] then Normal(Unit, st)
    else
      var o := EvalStmt(level, pass, heap, results, statements[0], st);
      if !o.Normal? || |statements| == 1 then o
      else EvalStmts(level, pass, heap, results, statements[1..], o.state)
  }

  function EvalStmt(level: Level, pass: Pass, heap: Heap, results: CallResults, s: Stmt, st: State): Outcome
    decreases s
  {
    match s
    case ExprStmt(e) => Eval(level, pass, heap, results, e, st)
    case VarStmt(v) =>
      if level == Source && IsLateinitVariable(v.symbol) then
        Normal(Unit, st.(locals := st.locals[v.symbol.id := NullValue]))
      else
        match v.initializer
        case None => Normal(Unit, st.(locals := st.locals - {v.symbol.id}))
        case Some(x) =>
          var o := Eval(level, pass, heap, results, x, st);
          if !o.Normal? then o
          else Normal(Unit, o.state.(locals := o.state.locals[v.symbol.id := o.value]))
  }
}
