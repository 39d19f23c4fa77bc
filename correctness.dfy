/** What the lowering means: each synthesized shape behaves as the source construct it
    replaces, and lowering a whole expression preserves its evaluation, including the order
    and number of field reads. */
module Correctness {
  import opened Ir
  import opened Lowering
  import opened Semantics

  /** Value-argument slots that are all empty evaluate to `Unit` each, without effect. */
  lemma {:induction false} EmptySlotsEvaluate(level: Level, pass: Pass, heap: Heap, results: CallResults, arguments: seq<Option<Expr>>, st: State)
    requires forall i :: 0 <= i < |arguments| ==> arguments[i].None?
    ensures EvalArguments(level, pass, heap, results, arguments, st) == Evaluated(seq(|arguments|, _ => Unit), st)
    decreases arguments
  {
    if arguments != [] {
      EmptySlotsEvaluate(level, pass, heap, results, arguments[1..], st);
      assert [Unit] + seq(|arguments| - 1, _ => Unit) == seq(|arguments|, _ => Unit);
    }
  }

  /** The throw-helper call raises the uninitialized-access error, naming the declaration
      exactly when the flag is set, and has no other effect. */
  lemma ThrowCallRaises(level: Level, pass: Pass, heap: Heap, results: CallResults, name: string, st: State)
    requires ThrowUninitializedPropertyAccessException(pass, name).Ok?
    requires level == Lowered || pass.throwErrorFunction != pass.isInitializedGetter
    ensures Eval(level, pass, heap, results, ThrowUninitializedPropertyAccessException(pass, name).value, st) ==
            Raised(ExpectedMessage(pass, name), st)
  {
    var call := ThrowUninitializedPropertyAccessException(pass, name).value;
    var arguments := call.arguments;
    var n := |arguments|;
    if pass.generateParameterNameInAssertion {
      assert arguments[0] == Some(Const(Str(name)));
      EmptySlotsEvaluate(level, pass, heap, results, arguments[1..], st);
      var rest := seq(n - 1, _ => Unit);
      assert EvalOptional(level, pass, heap, results, arguments[0], st) == Normal(StrValue(name), st);
      assert EvalArguments(level, pass, heap, results, arguments, st) == Evaluated([StrValue(name)] + rest, st);
    } else {
      EmptySlotsEvaluate(level, pass, heap, results, arguments, st);
      assert MessageOf(seq(n, _ => Unit)) == None;
    }
  }

  /** A lowered read of a lateinit local raises exactly when the local holds null; otherwise it
      yields the stored value. It reads no field and changes no local. */
  lemma CheckedReadSemantics(pass: Pass, heap: Heap, results: CallResults, s: Symbol, st: State)
    requires IsLateinitVariable(s) && LowerGetValue(pass, s).Ok?
    requires s.id in st.locals
    ensures var o := Eval(Lowered, pass, heap, results, LowerGetValue(pass, s).value, st);
            (o.Raised? <==> st.locals[s.id] == NullValue) &&
            (o.Raised? ==> o == Raised(ExpectedMessage(pass, s.descriptor.name), st)) &&
            (!o.Raised? ==> o == Normal(st.locals[s.id], st))
  {
    var raise := ThrowUninitializedPropertyAccessException(pass, SymbolName(s)).value;
    var check := If(EqualsNull(GetValue(s)), raise, None);
    var v := st.locals[s.id];
    var statements := [ExprStmt(check), ExprStmt(GetValue(s))];
    assert LowerGetValue(pass, s).value == Block(statements);
    assert statements[1..] == [ExprStmt(GetValue(s))];
    assert Eval(Lowered, pass, heap, results, EqualsNull(GetValue(s)), st) == Normal(BoolValue(v == NullValue), st);
    if v == NullValue {
      ThrowCallRaises(Lowered, pass, heap, results, SymbolName(s), st);
      assert Eval(Lowered, pass, heap, results, check, st) == Raised(ExpectedMessage(pass, s.descriptor.name), st);
      assert EvalStmts(Lowered, pass, heap, results, statements, st) == Raised(ExpectedMessage(pass, s.descriptor.name), st);
    } else {
      assert Eval(Lowered, pass, heap, results, check, st) == Normal(Unit, st);
      assert Eval(Lowered, pass, heap, results, GetValue(s), st) == Normal(v, st);
      assert EvalStmt(Lowered, pass, heap, results, ExprStmt(GetValue(s)), st) == Normal(v, st);
      assert EvalStmts(Lowered, pass, heap, results, [ExprStmt(GetValue(s))], st) == Normal(v, st);
      assert EvalStmts(Lowered, pass, heap, results, statements, st) == Normal(v, st);
    }
  }

  /** The key of the field a getter reads, given the getter's frame. */
  function GetterFieldKey(field: PropertyDescriptor, dispatchReceiverParameter: Option<Symbol>, st: State): FieldKey
    requires dispatchReceiverParameter.Some? ==>
               dispatchReceiverParameter.value.id in st.locals && st.locals[dispatchReceiverParameter.value.id].Ref?
  {
    match dispatchReceiverParameter
    case None => FieldKey(None, field.id)
    case Some(p) => FieldKey(Some(st.locals[p.id].obj), field.id)
  }

  /** The getter of a lateinit property reads its backing field exactly once and returns the
      value read when it is non-null, and raises the uninitialized-access error otherwise. */
  lemma GetterBodySemantics(pass: Pass, heap: Heap, results: CallResults, field: PropertyDescriptor,
                            dispatchReceiverParameter: Option<Symbol>, st: State)
    requires GetterBody(pass, field, dispatchReceiverParameter).Ok?
    requires dispatchReceiverParameter.Some? ==>
               dispatchReceiverParameter.value.id in st.locals && st.locals[dispatchReceiverParameter.value.id].Ref?
    requires GetterFieldKey(field, dispatchReceiverParameter, st) in heap
    ensures var key := GetterFieldKey(field, dispatchReceiverParameter, st);
            var o := Eval(Lowered, pass, heap, results, GetterBody(pass, field, dispatchReceiverParameter).value, st);
            (o.Returned? || o.Raised?) &&
            o.state.trace == st.trace + [key] &&
            (heap[key] != NullValue ==> o.Returned? && o.value == heap[key]) &&
            (heap[key] == NullValue ==> o.Raised? && o.message == ExpectedMessage(pass, field.name))
  {
    var key := GetterFieldKey(field, dispatchReceiverParameter, st);
    var t := TemporarySymbol(dispatchReceiverParameter);
    var read := GetterFieldRead(field, dispatchReceiverParameter);
    var st1 := st.(trace := st.trace + [key]);
    match dispatchReceiverParameter {
      case None =>
      case Some(p) =>
        assert Eval(Lowered, pass, heap, results, GetValue(p), st) == Normal(Ref(key.owner.value), st);
    }
    assert ReadField(Lowered, pass, heap, results, field, read.receiver, st) == Normal(heap[key], st1);
    assert Eval(Lowered, pass, heap, results, read, st) == Normal(heap[key], st1);
    var st2 := st1.(locals := st1.locals[t.id := heap[key]]);
    var raise := ThrowUninitializedPropertyAccessException(pass, field.name).value;
    var test := NotEquals(GetValue(t), Const(Null));
    var choice := If(test, Return(GetValue(t)), Some(raise));
    var statements := [VarStmt(Variable(t, Some(read))), ExprStmt(choice)];
    assert GetterBody(pass, field, dispatchReceiverParameter).value == Block(statements);
    assert statements[1..] == [ExprStmt(choice)];
    assert EvalStmt(Lowered, pass, heap, results, statements[0], st) == Normal(Unit, st2);
    assert Eval(Lowered, pass, heap, results, GetValue(t), st2) == Normal(heap[key], st2);
    assert Eval(Lowered, pass, heap, results, test, st2) == Normal(BoolValue(heap[key] != NullValue), st2);
    if heap[key] != NullValue {
      assert Eval(Lowered, pass, heap, results, choice, st2) == Returned(heap[key], st2);
    } else {
      ThrowCallRaises(Lowered, pass, heap, results, field.name, st2);
      assert Eval(Lowered, pass, heap, results, choice, st2) == Raised(ExpectedMessage(pass, field.name), st2);
    }
    assert EvalStmts(Lowered, pass, heap, results, statements[1..], st2) == Eval(Lowered, pass, heap, results, choice, st2);
    assert EvalStmts(Lowered, pass, heap, results, statements, st) == Eval(Lowered, pass, heap, results, choice, st2);
  }

  /** The rewritten `isInitialized` query evaluates the property reference's receiver once,
      reads the backing field once, and yields whether the field is non-null. */
  lemma IsInitializedSemantics(pass: Pass, heap: Heap, results: CallResults, property: PropertyDescriptor, receiver: Option<Expr>, st: State)
    ensures var o := Eval(Lowered, pass, heap, results, NotEquals(GetField(property, receiver), Const(Null)), st);
            var read := ReadField(Lowered, pass, heap, results, property, receiver, st);
            o == if read.Normal? then Normal(BoolValue(read.value != NullValue), read.state) else read
    ensures receiver.None? && FieldKey(None, property.id) in heap ==>
            Eval(Lowered, pass, heap, results, NotEquals(GetField(property, receiver), Const(Null)), st) ==
            Normal(BoolValue(heap[FieldKey(None, property.id)] != NullValue),
                   st.(trace := st.trace + [FieldKey(None, property.id)]))
  {
  }

  /** A lowered expression whose value is a property reference came from a property
      reference with the same property and the lowered receivers. */
  lemma LoweredPropertyReference(pass: Pass, x: Expr)
    requires LowerExpr(pass, x).Ok? && LowerExpr(pass, x).value.PropertyReference?
    ensures x.PropertyReference?
    ensures x.property == LowerExpr(pass, x).value.property
    ensures LowerOptional(pass, x.dispatchReceiver) == Ok(LowerExpr(pass, x).value.dispatchReceiver)
    ensures x.extensionReceiver.None? <==> LowerExpr(pass, x).value.extensionReceiver.None?
  {
    match x
    case GetValue(s) =>
    case Call(callee, dr, er, args) =>
    case _ =>
  }

  /** Lowering preserves evaluation: the lowered expression, run as lowered code, behaves as
      the original expression under the lateinit semantics — the same value, the same error
      and message, the same locals, and the same field reads in the same order. */
  lemma {:induction false} LowerExprCorrect(pass: Pass, heap: Heap, results: CallResults, e: Expr, st: State)
    requires LowerExpr(pass, e).Ok?
    ensures Eval(Lowered, pass, heap, results, LowerExpr(pass, e).value, st) == Eval(Source, pass, heap, results, e, st)
    decreases e
  {
    match e
    case Const(_) =>
    case GetValue(s) =>
      if IsLateinitVariable(s) {
        if s.id in st.locals {
          CheckedReadSemantics(pass, heap, results, s, st);
        } else {
          var statements := LowerGetValue(pass, s).value.statements;
          var check := statements[0].expr;
          assert Eval(Lowered, pass, heap, results, check.condition, st) == Stuck;
          assert Eval(Lowered, pass, heap, results, check, st) == Stuck;
          assert EvalStmts(Lowered, pass, heap, results, statements, st) == Stuck;
        }
      }
    case SetValue(s, value) =>
      LowerExprCorrect(pass, heap, results, value, st);
    case Call(callee, dispatchReceiver, extensionReceiver, arguments) =>
      LowerCallCorrect(pass, heap, results, e, st);
    case PropertyReference(_, _, _) =>
    case GetField(field, receiver) =>
      ReadFieldCorrect(pass, heap, results, field, receiver, st);
    case EqualsNull(operand) =>
      LowerExprCorrect(pass, heap, results, operand, st);
    case NotEquals(left, right) =>
      LowerExprCorrect(pass, heap, results, left, st);
      var o := Eval(Source, pass, heap, results, left, st);
      if o.Normal? {
        LowerExprCorrect(pass, heap, results, right, o.state);
      }
    case If(condition, thenBranch, elseBranch) =>
      LowerExprCorrect(pass, heap, results, condition, st);
      var o := Eval(Source, pass, heap, results, condition, st);
      if o.Normal? {
        LowerExprCorrect(pass, heap, results, thenBranch, o.state);
        LowerOptionalCorrect(pass, heap, results, elseBranch, o.state);
      }
    case Block(statements) =>
      LowerStmtsCorrect(pass, heap, results, statements, st);
    case Return(result) =>
      LowerExprCorrect(pass, heap, results, result, st);
  }

  lemma {:induction false} LowerCallCorrect(pass: Pass, heap: Heap, results: CallResults, e: Expr, st: State)
    requires e.Call? && LowerExpr(pass, e).Ok?
    ensures Eval(Lowered, pass, heap, results, LowerExpr(pass, e).value, st) == Eval(Source, pass, heap, results, e, st)
    decreases e, 0
  {
    var Call(callee, dispatchReceiver, extensionReceiver, arguments) := e;
    var dispatchReceiver' := LowerOptional(pass, dispatchReceiver).value;
    var extensionReceiver' := LowerOptional(pass, extensionReceiver).value;
    var arguments' := LowerArguments(pass, arguments).value;
    if callee == pass.isInitializedGetter {
      var x := extensionReceiver.value;
      LoweredPropertyReference(pass, x);
      var PropertyReference(property, receiver, _) := x;
      ReadFieldCorrect(pass, heap, results, property, receiver, st);
    } else {
      LowerOptionalCorrect(pass, heap, results, dispatchReceiver, st);
      var o1 := EvalOptional(Source, pass, heap, results, dispatchReceiver, st);
      if o1.Normal? {
        LowerOptionalCorrect(pass, heap, results, extensionReceiver, o1.state);
        var o2 := EvalOptional(Source, pass, heap, results, extensionReceiver, o1.state);
        if o2.Normal? {
          LowerArgumentsCorrect(pass, heap, results, arguments, o2.state);
        }
      }
    }
  }

  lemma {:induction false} ReadFieldCorrect(pass: Pass, heap: Heap, results: CallResults, field: PropertyDescriptor, receiver: Option<Expr>, st: State)
    requires LowerOptional(pass, receiver).Ok?
    ensures ReadField(Lowered, pass, heap, results, field, LowerOptional(pass, receiver).value, st) ==
            ReadField(Source, pass, heap, results, field, receiver, st)
    decreases receiver
  {
    if receiver.Some? {
      LowerExprCorrect(pass, heap, results, receiver.value, st);
    }
  }

  lemma {:induction false} LowerOptionalCorrect(pass: Pass, heap: Heap, results: CallResults, e: Option<Expr>, st: State)
    requires LowerOptional(pass, e).Ok?
    ensures EvalOptional(Lowered, pass, heap, results, LowerOptional(pass, e).value, st) ==
            EvalOptional(Source, pass, heap, results, e, st)
    decreases e
  {
    if e.Some? {
      LowerExprCorrect(pass, heap, results, e.value, st);
    }
  }

  lemma {:induction false} LowerArgumentsCorrect(pass: Pass, heap: Heap, results: CallResults, arguments: seq<Option<Expr>>, st: State)
    requires LowerArguments(pass, arguments).Ok?
    ensures EvalArguments(Lowered, pass, heap, results, LowerArguments(pass, arguments).value, st) ==
            EvalArguments(Source, pass, heap, results, arguments, st)
    decreases arguments
  {
    if arguments != [] {
      var first := LowerOptional(pass, arguments[0]).value;
      var rest := LowerArguments(pass, arguments[1..]).value;
      assert LowerArguments(pass, arguments).value == [first] + rest;
      assert ([first] + rest)[0] == first && ([first] + rest)[1..] == rest;
      LowerOptionalCorrect(pass, heap, results, arguments[0], st);
      var o := EvalOptional(Source, pass, heap, results, arguments[0], st);
      if o.Normal? {
        LowerArgumentsCorrect(pass, heap, results, arguments[1..], o.state);
      }
    }
  }

  lemma {:induction false} LowerStmtsCorrect(pass: Pass, heap: Heap, results: CallResults, statements: seq<Stmt>, st: State)
    requires LowerStmts(pass, statements).Ok?
    ensures EvalStmts(Lowered, pass, heap, results, LowerStmts(pass, statements).value, st) ==
            EvalStmts(Source, pass, heap, results, statements, st)
    decreases statements
  {
    if statements != [] {
      var first := LowerStmt(pass, statements[0]).value;
      var rest := LowerStmts(pass, statements[1..]).value;
      assert LowerStmts(pass, statements).value == [first] + rest;
      assert ([first] + rest)[0] == first && ([first] + rest)[1..] == rest;
      LowerStmtCorrect(pass, heap, results, statements[0], st);
      var o := EvalStmt(Source, pass, heap, results, statements[0], st);
      if o.Normal? && |statements| > 1 {
        LowerStmtsCorrect(pass, heap, results, statements[1..], o.state);
      }
    }
  }

  lemma {:induction false} LowerStmtCorrect(pass: Pass, heap: Heap, results: CallResults, s: Stmt, st: State)
    requires LowerStmt(pass, s).Ok?
    ensures EvalStmt(Lowered, pass, heap, results, LowerStmt(pass, s).value, st) == EvalStmt(Source, pass, heap, results, s, st)
    decreases s
  {
    match s
    case ExprStmt(e) =>
      LowerExprCorrect(pass, heap, results, e, st);
    case VarStmt(v) =>
      if !IsLateinitVariable(v.symbol) && v.initializer.Some? {
        LowerExprCorrect(pass, heap, results, v.initializer.value, st);
      }
  }
}
