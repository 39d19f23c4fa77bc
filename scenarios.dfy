/** The observable behaviour the lowering promises, on the shapes a program uses: a lateinit
    local read before and after its first assignment, and a lateinit property's
    `isInitialized` query against its getter. */
module Scenarios {
  import opened Ir
  import opened Lowering
  import opened Semantics
  import opened Correctness

  /** `{ lateinit var x; x }` */
  function ReadBeforeWrite(x: Symbol): Expr
  {
    Block([VarStmt(Variable(x, None)), ExprStmt(GetValue(x))])
  }

  /** `{ lateinit var x; x = "<s>"; x }` */
  function ReadAfterWrite(x: Symbol, s: string): Expr
  {
    Block([VarStmt(Variable(x, None)), ExprStmt(SetValue(x, Const(Str(s)))), ExprStmt(GetValue(x))])
  }

  /** `{ lateinit var x; f(); x }` */
  function CallThenRead(x: Symbol, f: FunctionSymbol): Expr
  {
    Block([VarStmt(Variable(x, None)), ExprStmt(Call(f, None, None, [])), ExprStmt(GetValue(x))])
  }

  /** `::<field>.isInitialized`, the property reference taken through `receiver`. */
  function IsInitializedQuery(pass: Pass, field: PropertyDescriptor, receiver: Option<Expr>): Expr
  {
    Call(pass.isInitializedGetter, None, Some(PropertyReference(field, receiver, None)), [])
  }

  /** The lowered form of a lateinit local's declaration and read: it lowers whenever the
      checked read can be built. */
  lemma LateinitLocalLowers(pass: Pass, x: Symbol, rest: seq<Stmt>)
    requires IsLateinitVariable(x) && !x.descriptor.isPrimitive
    requires ThrowUninitializedPropertyAccessException(pass, x.descriptor.name).Ok?
    requires LowerStmts(pass, rest).Ok?
    ensures LowerStmts(pass, [VarStmt(Variable(x, None))] + rest) ==
            Ok([VarStmt(Variable(x, Some(Const(Null))))] + LowerStmts(pass, rest).value)
  {
    var statements := [VarStmt(Variable(x, None))] + rest;
    assert statements[0] == VarStmt(Variable(x, None));
    assert statements[1..] == rest;
    assert LowerStmt(pass, statements[0]) == Ok(VarStmt(Variable(x, Some(Const(Null)))));
  }

  /** Reading a lateinit local before it is assigned raises the uninitialized-access error,
      naming the local exactly when the flag is set — in the lowered program as in the source. */
  lemma ReadBeforeWriteRaises(pass: Pass, heap: Heap, results: CallResults, x: Symbol, st: State)
    requires IsLateinitVariable(x) && !x.descriptor.isPrimitive
    requires ThrowUninitializedPropertyAccessException(pass, x.descriptor.name).Ok?
    ensures LowerExpr(pass, ReadBeforeWrite(x)).Ok?
    ensures Eval(Lowered, pass, heap, results, LowerExpr(pass, ReadBeforeWrite(x)).value, st) ==
            Raised(ExpectedMessage(pass, x.descriptor.name), st.(locals := st.locals[x.id := NullValue]))
  {
    var read := [ExprStmt(GetValue(x))];
    assert LowerStmt(pass, ExprStmt(GetValue(x))).Ok?;
    assert LowerStmts(pass, read).Ok?;
    LateinitLocalLowers(pass, x, read);
    assert ReadBeforeWrite(x).statements == [VarStmt(Variable(x, None))] + read;
    LowerExprCorrect(pass, heap, results, ReadBeforeWrite(x), st);
    var st1 := st.(locals := st.locals[x.id := NullValue]);
    var statements := ReadBeforeWrite(x).statements;
    assert statements[1..] == read;
    assert EvalStmt(Source, pass, heap, results, statements[0], st) == Normal(Unit, st1);
    assert st1.locals[x.id] == NullValue;
    assert Eval(Source, pass, heap, results, GetValue(x), st1) == Raised(ExpectedMessage(pass, x.descriptor.name), st1);
    assert EvalStmts(Source, pass, heap, results, read, st1) == Raised(ExpectedMessage(pass, x.descriptor.name), st1);
  }

  /** Once a lateinit local has been assigned, reading it yields the assigned value, in the
      lowered program as in the source. */
  lemma ReadAfterWriteYields(pass: Pass, heap: Heap, results: CallResults, x: Symbol, s: string, st: State)
    requires IsLateinitVariable(x) && !x.descriptor.isPrimitive
    requires ThrowUninitializedPropertyAccessException(pass, x.descriptor.name).Ok?
    ensures LowerExpr(pass, ReadAfterWrite(x, s)).Ok?
    ensures Eval(Lowered, pass, heap, results, LowerExpr(pass, ReadAfterWrite(x, s)).value, st) ==
            Normal(StrValue(s), st.(locals := st.locals[x.id := StrValue(s)]))
  {
    var write := ExprStmt(SetValue(x, Const(Str(s))));
    var read := ExprStmt(GetValue(x));
    var rest := [write, read];
    assert rest[1..] == [read];
    assert LowerExpr(pass, Const(Str(s))) == Ok(Const(Str(s)));
    assert LowerExpr(pass, SetValue(x, Const(Str(s)))) == Ok(SetValue(x, Const(Str(s))));
    assert LowerStmt(pass, write).Ok?;
    assert LowerStmt(pass, read).Ok?;
    assert LowerStmts(pass, [read]).Ok?;
    assert LowerStmts(pass, rest).Ok?;
    LateinitLocalLowers(pass, x, rest);
    assert ReadAfterWrite(x, s).statements == [VarStmt(Variable(x, None))] + rest;
    LowerExprCorrect(pass, heap, results, ReadAfterWrite(x, s), st);
    var st1 := st.(locals := st.locals[x.id := NullValue]);
    var st2 := st.(locals := st.locals[x.id := StrValue(s)]);
    assert st1.(locals := st1.locals[x.id := StrValue(s)]) == st2;
    var statements := ReadAfterWrite(x, s).statements;
    assert statements[1..] == rest;
    assert EvalStmt(Source, pass, heap, results, statements[0], st) == Normal(Unit, st1);
    assert Eval(Source, pass, heap, results, Const(Str(s)), st1) == Normal(StrValue(s), st1);
    assert Eval(Source, pass, heap, results, SetValue(x, Const(Str(s))), st1) == Normal(Unit, st2);
    assert EvalStmt(Source, pass, heap, results, write, st1) == Normal(Unit, st2);
    assert st2.locals[x.id] == StrValue(s);
    assert Eval(Source, pass, heap, results, GetValue(x), st2) == Normal(StrValue(s), st2);
    assert EvalStmts(Source, pass, heap, results, [read], st2) == Normal(StrValue(s), st2);
    assert EvalStmts(Source, pass, heap, results, rest, st1) == Normal(StrValue(s), st2);
  }

  /** A call to an ordinary function before the read changes nothing: the read still raises
      the uninitialized-access error, in the lowered program as in the source. */
  lemma CallThenReadRaises(pass: Pass, heap: Heap, results: CallResults, x: Symbol, f: FunctionSymbol, st: State)
    requires IsLateinitVariable(x) && !x.descriptor.isPrimitive
    requires ThrowUninitializedPropertyAccessException(pass, x.descriptor.name).Ok?
    requires f != pass.isInitializedGetter && f != pass.throwErrorFunction
    ensures LowerExpr(pass, CallThenRead(x, f)).Ok?
    ensures Eval(Lowered, pass, heap, results, LowerExpr(pass, CallThenRead(x, f)).value, st) ==
            Raised(ExpectedMessage(pass, x.descriptor.name), st.(locals := st.locals[x.id := NullValue]))
  {
    var call := ExprStmt(Call(f, None, None, []));
    var read := ExprStmt(GetValue(x));
    var rest := [call, read];
    assert rest[1..] == [read];
    assert LowerArguments(pass, []) == Ok([]);
    assert LowerOptional(pass, None) == Ok(None);
    assert LowerCall(pass, Call(f, None, None, [])) == Ok(Call(f, None, None, []));
    assert LowerExpr(pass, Call(f, None, None, [])) == Ok(Call(f, None, None, []));
    assert LowerStmt(pass, call) == Ok(call);
    assert LowerStmt(pass, read).Ok?;
    assert LowerStmts(pass, rest).Ok?;
    LateinitLocalLowers(pass, x, rest);
    assert CallThenRead(x, f).statements == [VarStmt(Variable(x, None))] + rest;
    LowerExprCorrect(pass, heap, results, CallThenRead(x, f), st);
    var st1 := st.(locals := st.locals[x.id := NullValue]);
    var message := ExpectedMessage(pass, x.descriptor.name);
    var statements := CallThenRead(x, f).statements;
    assert statements[1..] == rest;
    assert EvalStmt(Source, pass, heap, results, statements[0], st) == Normal(Unit, st1);
    assert EvalArguments(Source, pass, heap, results, [], st1) == Evaluated([], st1);
    assert EvalOptional(Source, pass, heap, results, None, st1) == Normal(Unit, st1);
    assert Eval(Source, pass, heap, results, Call(f, None, None, []), st1) == Normal(results(f), st1);
    assert EvalStmt(Source, pass, heap, results, call, st1) == Normal(results(f), st1);
    assert Eval(Source, pass, heap, results, GetValue(x), st1) == Raised(message, st1);
    assert EvalStmts(Source, pass, heap, results, [read], st1) == Raised(message, st1);
    assert EvalStmts(Source, pass, heap, results, rest, st1) == Raised(message, st1);
  }

  /** `::p.isInitialized`, taken on the receiver the getter reads through, is true exactly when
      the getter of `p` returns rather than raising, and both read the backing field once. */
  lemma IsInitializedAgreesWithGetter(pass: Pass, heap: Heap, results: CallResults, field: PropertyDescriptor,
                                      dispatchReceiverParameter: Option<Symbol>, st: State)
    requires GetterBody(pass, field, dispatchReceiverParameter).Ok?
    requires dispatchReceiverParameter.Some? ==>
               dispatchReceiverParameter.value.descriptor.ReceiverDescriptor? &&
               dispatchReceiverParameter.value.id in st.locals && st.locals[dispatchReceiverParameter.value.id].Ref?
    requires GetterFieldKey(field, dispatchReceiverParameter, st) in heap
    ensures var query := IsInitializedQuery(pass, field, GetterFieldRead(field, dispatchReceiverParameter).receiver);
            var o := Eval(Source, pass, heap, results, query, st);
            var g := Eval(Lowered, pass, heap, results, GetterBody(pass, field, dispatchReceiverParameter).value, st);
            LowerExpr(pass, query).Ok? &&
            Eval(Lowered, pass, heap, results, LowerExpr(pass, query).value, st) == o &&
            (g.Returned? || g.Raised?) && o.Normal? && o.value == BoolValue(g.Returned?) &&
            o.state.trace == g.state.trace
  {
    var key := GetterFieldKey(field, dispatchReceiverParameter, st);
    var receiver := GetterFieldRead(field, dispatchReceiverParameter).receiver;
    var query := IsInitializedQuery(pass, field, receiver);
    assert LowerOptional(pass, receiver) == Ok(receiver);
    assert LowerExpr(pass, PropertyReference(field, receiver, None)) == Ok(PropertyReference(field, receiver, None));
    assert LowerArguments(pass, []) == Ok([]);
    assert LowerExpr(pass, query).Ok?;
    LowerExprCorrect(pass, heap, results, query, st);
    GetterBodySemantics(pass, heap, results, field, dispatchReceiverParameter, st);
    match dispatchReceiverParameter {
      case None =>
      case Some(p) =>
        assert Eval(Source, pass, heap, results, GetValue(p), st) == Normal(Ref(key.owner.value), st);
    }
    assert ReadField(Source, pass, heap, results, field, receiver, st) == Normal(heap[key], st.(trace := st.trace + [key]));
  }
}
