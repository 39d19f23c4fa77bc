/** Structural facts about the traversal as a whole: which calls survive lowering, and that a
    tree with nothing lateinit in it comes back unchanged. */
module Structure {
  import opened Ir
  import opened Lowering

  /** The functions an expression calls. */
  function Callees(e: Expr): set<FunctionSymbol>
    decreases e
  {
    match e
    case Const(_) => {}
    case GetValue(_) => {}
    case SetValue(_, value) => Callees(value)
    case Call(callee, dispatchReceiver, extensionReceiver, arguments) =>
      {callee} + OptionalCallees(dispatchReceiver) + OptionalCallees(extensionReceiver) + ArgumentCallees(arguments)
    case PropertyReference(_, dispatchReceiver, extensionReceiver) =>
      OptionalCallees(dispatchReceiver) + OptionalCallees(extensionReceiver)
    case GetField(_, receiver) => OptionalCallees(receiver)
    case EqualsNull(operand) => Callees(operand)
    case NotEquals(left, right) => Callees(left) + Callees(right)
    case If(condition, thenBranch, elseBranch) =>
      Callees(condition) + Callees(thenBranch) + OptionalCallees(elseBranch)
    case Block(statements) => StmtsCallees(statements)
    case Return(result) => Callees(result)
  }

  function OptionalCallees(e: Option<Expr>): set<FunctionSymbol>
    decreases e
  {
    match e
    case None => {}
    case Some(x) => Callees(x)
  }

  function ArgumentCallees(arguments: seq<Option<Expr>>): set<FunctionSymbol>
    decreases arguments
  {
    if arguments == [] then {} else OptionalCallees(arguments[0]) + ArgumentCallees(arguments[1..])
  }

  function StmtsCallees(statements: seq<Stmt>): set<FunctionSymbol>
    decreases statements
  {
    if statements == [] then {} else StmtCallees(statements[0]) + StmtsCallees(statements[1..])
  }

  function StmtCallees(s: Stmt): set<FunctionSymbol>
    decreases s
  {
    match s
    case ExprStmt(e) => Callees(e)
    case VarStmt(v) => OptionalCallees(v.initializer)
  }

  /** The lateinit variables an expression reads or declares. */
  function LateinitUses(e: Expr): set<Symbol>
    decreases e
  {
    match e
    case Const(_) => {}
    case GetValue(s) => if IsLateinitVariable(s) then {s} else {}
    case SetValue(_, value) => LateinitUses(value)
    case Call(_, dispatchReceiver, extensionReceiver, arguments) =>
      OptionalLateinitUses(dispatchReceiver) + OptionalLateinitUses(extensionReceiver) + ArgumentLateinitUses(arguments)
    case PropertyReference(_, dispatchReceiver, extensionReceiver) =>
      OptionalLateinitUses(dispatchReceiver) + OptionalLateinitUses(extensionReceiver)
    case GetField(_, receiver) => OptionalLateinitUses(receiver)
    case EqualsNull(operand) => LateinitUses(operand)
    case NotEquals(left, right) => LateinitUses(left) + LateinitUses(right)
    case If(condition, thenBranch, elseBranch) =>
      LateinitUses(condition) + LateinitUses(thenBranch) + OptionalLateinitUses(elseBranch)
    case Block(statements) => StmtsLateinitUses(statements)
    case Return(result) => LateinitUses(result)
  }

  function OptionalLateinitUses(e: Option<Expr>): set<Symbol>
    decreases e
  {
    match e
    case None => {}
    case Some(x) => LateinitUses(x)
  }

  function ArgumentLateinitUses(arguments: seq<Option<Expr>>): set<Symbol>
    decreases arguments
  {
    if arguments == [] then {} else OptionalLateinitUses(arguments[0]) + ArgumentLateinitUses(arguments[1..])
  }

  function StmtsLateinitUses(statements: seq<Stmt>): set<Symbol>
    decreases statements
  {
    if statements == [] then {} else StmtLateinitUses(statements[0]) + StmtsLateinitUses(statements[1..])
  }

  function StmtLateinitUses(s: Stmt): set<Symbol>
    decreases s
  {
    match s
    case ExprStmt(e) => LateinitUses(e)
    case VarStmt(v) =>
      (if IsLateinitVariable(v.symbol) then {v.symbol} else {}) + OptionalLateinitUses(v.initializer)
  }

  /** The calls the lowered tree makes: those of the original, minus every call to the
      `isInitialized` getter, plus calls to the throw helper. */
  lemma {:induction false} LoweringCallees(pass: Pass, e: Expr)
    requires LowerExpr(pass, e).Ok?
    ensures Callees(LowerExpr(pass, e).value) <=
            (Callees(e) - {pass.isInitializedGetter}) + {pass.throwErrorFunction}
    decreases e
  {
    match e
    case Const(_) =>
    case GetValue(s) =>
      if IsLateinitVariable(s) {
        var raise := ThrowUninitializedPropertyAccessException(pass, SymbolName(s)).value;
        ThrowCallCallees(pass, SymbolName(s));
        var statements := LowerGetValue(pass, s).value.statements;
        assert statements[1..] == [ExprStmt(GetValue(s))];
        var last := ExprStmt(GetValue(s));
        assert [last][1..] == [];
        assert Callees(GetValue(s)) == {};
        assert StmtCallees(last) == {};
        assert StmtsCallees([last]) == {};
        var check := statements[0].expr;
        assert check == If(EqualsNull(GetValue(s)), raise, None);
        assert Callees(check) == {pass.throwErrorFunction};
        assert statements == [ExprStmt(check), last];
        assert StmtsCallees(statements) == StmtCallees(ExprStmt(check)) + StmtsCallees([last]);
        assert Callees(LowerExpr(pass, e).value) == StmtsCallees(statements);
      }
    case SetValue(_, value) =>
      LoweringCallees(pass, value);
    case Call(callee, dispatchReceiver, extensionReceiver, arguments) =>
      OptionalLoweringCallees(pass, dispatchReceiver);
      OptionalLoweringCallees(pass, extensionReceiver);
      ArgumentLoweringCallees(pass, arguments);
      if callee == pass.isInitializedGetter {
        var x := extensionReceiver.value;
        assert LowerExpr(pass, x).value.PropertyReference?;
        assert x.PropertyReference? by {
          match x
          case GetValue(_) =>
          case Call(_, _, _, _) =>
          case _ =>
        }
        OptionalLoweringCallees(pass, x.dispatchReceiver);
      }
    case PropertyReference(_, dispatchReceiver, extensionReceiver) =>
      OptionalLoweringCallees(pass, dispatchReceiver);
      OptionalLoweringCallees(pass, extensionReceiver);
    case GetField(_, receiver) =>
      OptionalLoweringCallees(pass, receiver);
    case EqualsNull(operand) =>
      LoweringCallees(pass, operand);
    case NotEquals(left, right) =>
      LoweringCallees(pass, left);
      LoweringCallees(pass, right);
    case If(condition, thenBranch, elseBranch) =>
      LoweringCallees(pass, condition);
      LoweringCallees(pass, thenBranch);
      OptionalLoweringCallees(pass, elseBranch);
    case Block(statements) =>
      StmtsLoweringCallees(pass, statements);
    case Return(result) =>
      LoweringCallees(pass, result);
  }

  lemma ThrowCallCallees(pass: Pass, name: string)
    requires ThrowUninitializedPropertyAccessException(pass, name).Ok?
    ensures Callees(ThrowUninitializedPropertyAccessException(pass, name).value) == {pass.throwErrorFunction}
  {
    var call := ThrowUninitializedPropertyAccessException(pass, name).value;
    ConstantArgumentCallees(call.arguments);
  }

  lemma {:induction false} ConstantArgumentCallees(arguments: seq<Option<Expr>>)
    requires forall i :: 0 <= i < |arguments| ==> arguments[i].None? || arguments[i].value.Const?
    ensures ArgumentCallees(arguments) == {}
    decreases arguments
  {
    if arguments != [] {
      ConstantArgumentCallees(arguments[1..]);
      if arguments[0].Some? {
        assert Callees(arguments[0].value) == {};
      }
    }
  }

  lemma {:induction false} OptionalLoweringCallees(pass: Pass, e: Option<Expr>)
    requires LowerOptional(pass, e).Ok?
    ensures OptionalCallees(LowerOptional(pass, e).value) <=
            (OptionalCallees(e) - {pass.isInitializedGetter}) + {pass.throwErrorFunction}
    decreases e
  {
    if e.Some? {
      LoweringCallees(pass, e.value);
    }
  }

  lemma {:induction false} ArgumentLoweringCallees(pass: Pass, arguments: seq<Option<Expr>>)
    requires LowerArguments(pass, arguments).Ok?
    ensures ArgumentCallees(LowerArguments(pass, arguments).value) <=
            (ArgumentCallees(arguments) - {pass.isInitializedGetter}) + {pass.throwErrorFunction}
    decreases arguments
  {
    if arguments != [] {
      var first := LowerOptional(pass, arguments[0]).value;
      var rest := LowerArguments(pass, arguments[1..]).value;
      assert ([first] + rest)[0] == first && ([first] + rest)[1..] == rest;
      OptionalLoweringCallees(pass, arguments[0]);
      ArgumentLoweringCallees(pass, arguments[1..]);
    }
  }

  lemma {:induction false} StmtsLoweringCallees(pass: Pass, statements: seq<Stmt>)
    requires LowerStmts(pass, statements).Ok?
    ensures StmtsCallees(LowerStmts(pass, statements).value) <=
            (StmtsCallees(statements) - {pass.isInitializedGetter}) + {pass.throwErrorFunction}
    decreases statements
  {
    if statements != [] {
      var first := LowerStmt(pass, statements[0]).value;
      var rest := LowerStmts(pass, statements[1..]).value;
      assert ([first] + rest)[0] == first && ([first] + rest)[1..] == rest;
      StmtLoweringCallees(pass, statements[0]);
      StmtsLoweringCallees(pass, statements[1..]);
    }
  }

  lemma {:induction false} StmtLoweringCallees(pass: Pass, s: Stmt)
    requires LowerStmt(pass, s).Ok?
    ensures StmtCallees(LowerStmt(pass, s).value) <=
            (StmtCallees(s) - {pass.isInitializedGetter}) + {pass.throwErrorFunction}
    decreases s
  {
    match s
    case ExprStmt(e) =>
      LoweringCallees(pass, e);
    case VarStmt(v) =>
      OptionalLoweringCallees(pass, v.initializer);
  }

  /** After lowering, no call to the `isInitialized` getter is left (the throw helper being a
      different function). */
  lemma IsInitializedCallsEliminated(pass: Pass, e: Expr)
    requires LowerExpr(pass, e).Ok?
    requires pass.throwErrorFunction != pass.isInitializedGetter
    ensures pass.isInitializedGetter !in Callees(LowerExpr(pass, e).value)
  {
    LoweringCallees(pass, e);
  }

  /** A tree that neither reads nor declares a lateinit variable and never calls the
      `isInitialized` getter is returned unchanged. */
  lemma {:induction false} LoweringIdentity(pass: Pass, e: Expr)
    requires LateinitUses(e) == {} && pass.isInitializedGetter !in Callees(e)
    ensures LowerExpr(pass, e) == Ok(e)
    decreases e
  {
    match e
    case Const(_) =>
    case GetValue(_) =>
    case SetValue(_, value) =>
      LoweringIdentity(pass, value);
    case Call(_, dispatchReceiver, extensionReceiver, arguments) =>
      OptionalLoweringIdentity(pass, dispatchReceiver);
      OptionalLoweringIdentity(pass, extensionReceiver);
      ArgumentLoweringIdentity(pass, arguments);
    case PropertyReference(_, dispatchReceiver, extensionReceiver) =>
      OptionalLoweringIdentity(pass, dispatchReceiver);
      OptionalLoweringIdentity(pass, extensionReceiver);
    case GetField(_, receiver) =>
      OptionalLoweringIdentity(pass, receiver);
    case EqualsNull(operand) =>
      LoweringIdentity(pass, operand);
    case NotEquals(left, right) =>
      LoweringIdentity(pass, left);
      LoweringIdentity(pass, right);
    case If(condition, thenBranch, elseBranch) =>
      LoweringIdentity(pass, condition);
      LoweringIdentity(pass, thenBranch);
      OptionalLoweringIdentity(pass, elseBranch);
    case Block(statements) =>
      StmtsLoweringIdentity(pass, statements);
    case Return(result) =>
      LoweringIdentity(pass, result);
  }

  lemma {:induction false} OptionalLoweringIdentity(pass: Pass, e: Option<Expr>)
    requires OptionalLateinitUses(e) == {} && pass.isInitializedGetter !in OptionalCallees(e)
    ensures LowerOptional(pass, e) == Ok(e)
    decreases e
  {
    if e.Some? {
      LoweringIdentity(pass, e.value);
    }
  }

  lemma {:induction false} ArgumentLoweringIdentity(pass: Pass, arguments: seq<Option<Expr>>)
    requires ArgumentLateinitUses(arguments) == {} && pass.isInitializedGetter !in ArgumentCallees(arguments)
    ensures LowerArguments(pass, arguments) == Ok(arguments)
    decreases arguments
  {
    if arguments != [] {
      OptionalLoweringIdentity(pass, arguments[0]);
      ArgumentLoweringIdentity(pass, arguments[1..]);
      assert [arguments[0]] + arguments[1..] == arguments;
    }
  }

  lemma {:induction false} StmtsLoweringIdentity(pass: Pass, statements: seq<Stmt>)
    requires StmtsLateinitUses(statements) == {} && pass.isInitializedGetter !in StmtsCallees(statements)
    ensures LowerStmts(pass, statements) == Ok(statements)
    decreases statements
  {
    if statements != [] {
      StmtLoweringIdentity(pass, statements[0]);
      StmtsLoweringIdentity(pass, statements[1..]);
      assert [statements[0]] + statements[1..] == statements;
    }
  }

  lemma {:induction false} StmtLoweringIdentity(pass: Pass, s: Stmt)
    requires StmtLateinitUses(s) == {} && pass.isInitializedGetter !in StmtCallees(s)
    ensures LowerStmt(pass, s) == Ok(s)
    decreases s
  {
    match s
    case ExprStmt(e) =>
      LoweringIdentity(pass, e);
    case VarStmt(v) =>
      OptionalLoweringIdentity(pass, v.initializer);
  }
}
