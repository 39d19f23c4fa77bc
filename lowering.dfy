/** The rewriting rules of the lateinit lowering pass as functions over IR values:
    resolution of the `isInitialized` getter, the throw-helper builder, the read rule,
    the reflective-query rule, the local-variable rule, the getter body of a lateinit
    property, and the bottom-up traversal that applies them. */
module Lowering {
  import opened Ir

  /** The pass after construction: its configuration flag and the two well-known symbols it
      resolved once (the `isInitialized` getter and the runtime throw helper). */
  datatype Pass = Pass(generateParameterNameInAssertion: bool,
                       isInitializedGetter: FunctionSymbol,
                       throwErrorFunction: FunctionSymbol)

  /** A property named `isInitialized` contributed by the `kotlin` package scope: the class of
      its extension receiver type (None when it has no extension receiver or the receiver type
      has no class) and its getter, if any. */
  datatype PropertyCandidate = PropertyCandidate(extensionReceiverClass: Option<nat>,
                                                 getter: Option<FunctionSymbol>)

  predicate ExtendsKProperty0(c: PropertyCandidate, kProperty0: nat)
  {
    c.extensionReceiverClass == Some(kProperty0)
  }

  /** The candidates `single { ... }` selects from, in order. */
  function MatchingCandidates(candidates: seq<PropertyCandidate>, kProperty0: nat): (r: seq<PropertyCandidate>)
    ensures |r| <= |candidates|
    ensures forall c :: c in r <==> c in candidates && ExtendsKProperty0(c, kProperty0)
    ensures forall c :: multiset(r)[c] == if ExtendsKProperty0(c, kProperty0) then multiset(candidates)[c] else 0
  {
    if candidates == [] then []
    else
      var rest := MatchingCandidates(candidates[1..], kProperty0);
      assert candidates == [candidates[0]] + candidates[1..];
      assert multiset(candidates) == multiset{candidates[0]} + multiset(candidates[1..]);
      if ExtendsKProperty0(candidates[0], kProperty0) then
        assert multiset([candidates[0]] + rest) == multiset{candidates[0]} + multiset(rest);
        [candidates[0]] + rest
      else rest
  }

  /** `single { it extends KProperty0 }.getter!!`. */
  function ResolveIsInitializedGetter(candidates: seq<PropertyCandidate>, kProperty0: nat): (r: Result<FunctionSymbol>)
    ensures (forall c :: c in candidates ==> !ExtendsKProperty0(c, kProperty0)) ==> r == Err(NoUniqueIsInitialized)
    ensures r.Ok? ==> exists c :: c in candidates && ExtendsKProperty0(c, kProperty0) && c.getter == Some(r.value)
  {
    var matching := MatchingCandidates(candidates, kProperty0);
    if |matching| != 1 then Err(NoUniqueIsInitialized)
    else if matching[0].getter.None? then
      assert matching[0] in matching;
      Err(MissingIsInitializedGetter)
    else Ok(matching[0].getter.value)
  }

  /** Exactly one candidate at position i matches. */
  ghost predicate UniqueMatchAt(candidates: seq<PropertyCandidate>, kProperty0: nat, i: int)
  {
    0 <= i < |candidates| && ExtendsKProperty0(candidates[i], kProperty0) &&
    forall j :: 0 <= j < |candidates| && j != i ==> !ExtendsKProperty0(candidates[j], kProperty0)
  }

  lemma {:induction false} MatchingSingleton(candidates: seq<PropertyCandidate>, kProperty0: nat)
    ensures |MatchingCandidates(candidates, kProperty0)| == 1 <==>
            exists i :: UniqueMatchAt(candidates, kProperty0, i)
    ensures forall i :: UniqueMatchAt(candidates, kProperty0, i) ==>
            MatchingCandidates(candidates, kProperty0) == [candidates[i]]
    decreases |candidates|
  {
    if candidates != [] {
      var tail := candidates[1..];
      MatchingSingleton(tail, kProperty0);
      var m := MatchingCandidates(tail, kProperty0);
      if ExtendsKProperty0(candidates[0], kProperty0) {
        if |m| == 0 {
          assert UniqueMatchAt(candidates, kProperty0, 0) by {
            forall j | 0 < j < |candidates| ensures !ExtendsKProperty0(candidates[j], kProperty0) {
              assert candidates[j] == tail[j - 1];
              assert candidates[j] !in m;
            }
          }
        } else {
          forall i ensures !UniqueMatchAt(candidates, kProperty0, i) {
            var c := m[0];
            assert c in tail;
            var k :| 0 <= k < |tail| && tail[k] == c;
            assert candidates[k + 1] == c;
          }
        }
      } else {
        forall i | UniqueMatchAt(candidates, kProperty0, i) ensures UniqueMatchAt(tail, kProperty0, i - 1) {
          forall j | 0 <= j < |tail| && j != i - 1 ensures !ExtendsKProperty0(tail[j], kProperty0) {
            assert tail[j] == candidates[j + 1];
          }
        }
        forall i | UniqueMatchAt(tail, kProperty0, i) ensures UniqueMatchAt(candidates, kProperty0, i + 1) {
          forall j | 0 <= j < |candidates| && j != i + 1 ensures !ExtendsKProperty0(candidates[j], kProperty0) {
            if j > 0 { assert candidates[j] == tail[j - 1]; }
          }
        }
      }
    }
  }

  /** Resolution succeeds exactly when one candidate extends `KProperty0` and that candidate
      has a getter; the result is that getter. */
  lemma ResolveIsInitializedGetterIsUnique(candidates: seq<PropertyCandidate>, kProperty0: nat, g: FunctionSymbol)
    ensures ResolveIsInitializedGetter(candidates, kProperty0) == Ok(g) <==>
            exists i :: UniqueMatchAt(candidates, kProperty0, i) && candidates[i].getter == Some(g)
  {
    MatchingSingleton(candidates, kProperty0);
  }

  /** Construction of the pass: resolves the `isInitialized` getter once; the throw helper is
      taken from the context's symbol table. */
  function NewPass(generateParameterNameInAssertion: bool, candidates: seq<PropertyCandidate>,
                   kProperty0: nat, throwErrorFunction: FunctionSymbol): (r: Result<Pass>)
    ensures r.Ok? <==> ResolveIsInitializedGetter(candidates, kProperty0).Ok?
    ensures r.Ok? ==> r.value.generateParameterNameInAssertion == generateParameterNameInAssertion &&
                      r.value.throwErrorFunction == throwErrorFunction &&
                      Some(r.value.isInitializedGetter) in
                        set c | c in candidates && ExtendsKProperty0(c, kProperty0) :: c.getter
  {
    var getter :- ResolveIsInitializedGetter(candidates, kProperty0);
    Ok(Pass(generateParameterNameInAssertion, getter, throwErrorFunction))
  }

  /** The name argument the throw helper is given: the string constant in the first value
      argument slot, if there is one. */
  function SuppliedName(arguments: seq<Option<Expr>>): Option<string>
  {
    if |arguments| > 0 && arguments[0].Some? && arguments[0].value.Const? && arguments[0].value.constant.Str?
    then Some(arguments[0].value.constant.s)
    else None
  }

  /** `irCall(throwErrorFunction)` with the name put at argument index 0 when the flag is set. */
  function ThrowUninitializedPropertyAccessException(pass: Pass, name: string): (r: Result<Expr>)
    ensures r.Ok? <==> !pass.generateParameterNameInAssertion || pass.throwErrorFunction.valueParameterCount > 0
    ensures r.Ok? ==> r.value.Call? && r.value.callee == pass.throwErrorFunction &&
                      r.value.dispatchReceiver.None? && r.value.extensionReceiver.None? &&
                      |r.value.arguments| == pass.throwErrorFunction.valueParameterCount
    ensures r.Ok? ==> (SuppliedName(r.value.arguments) == Some(name) <==> pass.generateParameterNameInAssertion)
    ensures r.Ok? ==> forall i :: 0 <= i < |r.value.arguments| ==>
                      (r.value.arguments[i].Some? <==> i == 0 && pass.generateParameterNameInAssertion)
  {
    var slots: seq<Option<Expr>> := seq(pass.throwErrorFunction.valueParameterCount, _ => None);
    if !pass.generateParameterNameInAssertion then
      Ok(Call(pass.throwErrorFunction, None, None, slots))
    else if |slots| == 0 then
      Err(ArgumentIndexOutOfRange)
    else
      Ok(Call(pass.throwErrorFunction, None, None, slots[0 := Some(Const(Str(name)))]))
  }

  /** The name a value symbol's throw call carries. */
  function SymbolName(s: Symbol): string
  {
    s.descriptor.name
  }

  /** `visitGetValue`: a read of a lateinit variable becomes a checked read. */
  function LowerGetValue(pass: Pass, s: Symbol): (r: Result<Expr>)
    ensures !IsLateinitVariable(s) ==> r == Ok(GetValue(s))
    ensures IsLateinitVariable(s) ==>
              (r.Ok? <==> !s.descriptor.isPrimitive && ThrowUninitializedPropertyAccessException(pass, SymbolName(s)).Ok?)
    ensures IsLateinitVariable(s) && s.descriptor.isPrimitive ==> r == Err(LateinitPrimitiveType)
    ensures IsLateinitVariable(s) && r.Ok? ==>
              r.value.Block? && |r.value.statements| == 2 &&
              r.value.statements[1] == ExprStmt(GetValue(s)) &&
              r.value.statements[0].ExprStmt? &&
              r.value.statements[0].expr.If? &&
              r.value.statements[0].expr.condition == EqualsNull(GetValue(s)) &&
              r.value.statements[0].expr.elseBranch.None? &&
              r.value.statements[0].expr.thenBranch.Call? &&
              r.value.statements[0].expr.thenBranch.callee == pass.throwErrorFunction
  {
    if !IsLateinitVariable(s) then Ok(GetValue(s))
    else if s.descriptor.isPrimitive then Err(LateinitPrimitiveType)
    else
      var raise :- ThrowUninitializedPropertyAccessException(pass, SymbolName(s));
      // no data-flow analysis: every read is checked, and the two reads built here are final
      Ok(Block([ExprStmt(If(EqualsNull(GetValue(s)), raise, None)), ExprStmt(GetValue(s))]))
  }

  /** The rewrite of a call to the `isInitialized` getter, given its lowered extension receiver. */
  function LowerIsInitializedCall(extensionReceiver: Option<Expr>): (r: Result<Expr>)
    ensures r.Ok? <==> extensionReceiver.Some? && extensionReceiver.value.PropertyReference? &&
                       extensionReceiver.value.extensionReceiver.None? &&
                       !extensionReceiver.value.property.isPrimitive
    ensures !(extensionReceiver.Some? && extensionReceiver.value.PropertyReference?) ==> r == Err(NotAPropertyReference)
    ensures r.Ok? ==> r.value == NotEquals(GetField(extensionReceiver.value.property,
                                                    extensionReceiver.value.dispatchReceiver),
                                           Const(Null))
  {
    match extensionReceiver
    case Some(PropertyReference(property, dispatchReceiver, propertyExtensionReceiver)) =>
      if propertyExtensionReceiver.Some? then Err(LateinitExtensionProperty)
      else if property.isPrimitive then Err(LateinitPrimitiveType)
      else Ok(NotEquals(GetField(property, dispatchReceiver), Const(Null)))
    case _ => Err(NotAPropertyReference)
  }

  /** `visitCall` after the call's children have been lowered. */
  function LowerCall(pass: Pass, call: Expr): (r: Result<Expr>)
    requires call.Call?
    ensures call.callee != pass.isInitializedGetter ==> r == Ok(call)
    ensures call.callee == pass.isInitializedGetter ==> r == LowerIsInitializedCall(call.extensionReceiver)
  {
    if call.callee != pass.isInitializedGetter then Ok(call)
    else LowerIsInitializedCall(call.extensionReceiver)
  }

  /** The bottom-up traversal: children first, then the rule for the node itself. */
  function LowerExpr(pass: Pass, e: Expr): (r: Result<Expr>)
    decreases e
    ensures r.Ok? && e.Call? && e.callee != pass.isInitializedGetter ==>
              r.value.Call? && r.value.callee == e.callee && |r.value.arguments| == |e.arguments|
    ensures r.Ok? && e.Block? ==> r.value.Block? && |r.value.statements| == |e.statements|
  {
    match e
    case Const(_) => Ok(e)
    case GetValue(s) => LowerGetValue(pass, s)
    case SetValue(s, value) =>
      var value' :- LowerExpr(pass, value);
      Ok(SetValue(s, value'))
    case Call(callee, dispatchReceiver, extensionReceiver, arguments) =>
      var dispatchReceiver' :- LowerOptional(pass, dispatchReceiver);
      var extensionReceiver' :- LowerOptional(pass, extensionReceiver);
      var arguments' :- LowerArguments(pass, arguments);
      LowerCall(pass, Call(callee, dispatchReceiver', extensionReceiver', arguments'))
    case PropertyReference(property, dispatchReceiver, extensionReceiver) =>
      var dispatchReceiver' :- LowerOptional(pass, dispatchReceiver);
      var extensionReceiver' :- LowerOptional(pass, extensionReceiver);
      Ok(PropertyReference(property, dispatchReceiver', extensionReceiver'))
    case GetField(field, receiver) =>
      var receiver' :- LowerOptional(pass, receiver);
      Ok(GetField(field, receiver'))
    case EqualsNull(operand) =>
      var operand' :- LowerExpr(pass, operand);
      Ok(EqualsNull(operand'))
    case NotEquals(left, right) =>
      var left' :- LowerExpr(pass, left);
      var right' :- LowerExpr(pass, right);
      Ok(NotEquals(left', right'))
    case If(condition, thenBranch, elseBranch) =>
      var condition' :- LowerExpr(pass, condition);
      var thenBranch' :- LowerExpr(pass, thenBranch);
      var elseBranch' :- LowerOptional(pass, elseBranch);
      Ok(If(condition', thenBranch', elseBranch'))
    case Block(statements) =>
      var statements' :- LowerStmts(pass, statements);
      Ok(Block(statements'))
    case Return(result) =>
      var result' :- LowerExpr(pass, result);
      Ok(Return(result'))
  }

  /** Lowering an optional child neither adds nor removes it. */
  function LowerOptional(pass: Pass, e: Option<Expr>): (r: Result<Option<Expr>>)
    decreases e
    ensures r.Ok? ==> (r.value.None? <==> e.None?)
  {
    match e
    case None => Ok(None)
    case Some(x) =>
      var x' :- LowerExpr(pass, x);
      Ok(Some(x'))
  }

  /** The argument slots are lowered one by one, in order; a failing slot fails the call,
      and the first failure is the one reported. */
  function LowerArguments(pass: Pass, arguments: seq<Option<Expr>>): (r: Result<seq<Option<Expr>>>)
    decreases arguments
    ensures r.Ok? <==> forall i :: 0 <= i < |arguments| ==> LowerOptional(pass, arguments[i]).Ok?
    ensures r.Ok? ==> |r.value| == |arguments| &&
                      forall i :: 0 <= i < |arguments| ==> r.value[i] == LowerOptional(pass, arguments[i]).value
    ensures r.Err? ==> exists i :: 0 <= i < |arguments| && LowerOptional(pass, arguments[i]) == Err(r.error) &&
                                   forall j :: 0 <= j < i ==> LowerOptional(pass, arguments[j]).Ok?
  {
    if arguments == [] then Ok([])
    else
      var first :- LowerOptional(pass, arguments[0]);
      var rest :- LowerArguments(pass, arguments[1..]);
      Ok([first] + rest)
  }

  /** The statements of a block are lowered one by one, in order; a failing statement fails
      the block, and the first failure is the one reported. */
  function LowerStmts(pass: Pass, statements: seq<Stmt>): (r: Result<seq<Stmt>>)
    decreases statements
    ensures r.Ok? <==> forall i :: 0 <= i < |statements| ==> LowerStmt(pass, statements[i]).Ok?
    ensures r.Ok? ==> |r.value| == |statements| &&
                      forall i :: 0 <= i < |statements| ==> r.value[i] == LowerStmt(pass, statements[i]).value
    ensures r.Err? ==> exists i :: 0 <= i < |statements| && LowerStmt(pass, statements[i]) == Err(r.error) &&
                                   forall j :: 0 <= j < i ==> LowerStmt(pass, statements[j]).Ok?
  {
    if statements == [] then Ok([])
    else
      var first :- LowerStmt(pass, statements[0]);
      var rest :- LowerStmts(pass, statements[1..]);
      Ok([first] + rest)
  }

  /** A statement keeps its kind, and a declaration its symbol. */
  function LowerStmt(pass: Pass, s: Stmt): (r: Result<Stmt>)
    decreases s
    ensures r.Ok? ==> (r.value.VarStmt? <==> s.VarStmt?)
    ensures r.Ok? && s.VarStmt? ==> r.value.variable.symbol == s.variable.symbol
  {
    match s
    case ExprStmt(e) =>
      var e' :- LowerExpr(pass, e);
      Ok(ExprStmt(e'))
    case VarStmt(v) =>
      var v' :- LowerVariable(pass, v);
      Ok(VarStmt(v'))
  }

  /** `visitVariable`: the initializer is lowered; a lateinit variable must then have none and
      a reference type, and gets the null constant. */
  function LowerVariable(pass: Pass, v: Variable): (r: Result<Variable>)
    decreases v
    ensures LowerOptional(pass, v.initializer).Err? ==> r == Err(LowerOptional(pass, v.initializer).error)
    ensures !IsLateinitVariable(v.symbol) && LowerOptional(pass, v.initializer).Ok? ==>
              r == Ok(Variable(v.symbol, LowerOptional(pass, v.initializer).value))
    ensures IsLateinitVariable(v.symbol) ==>
              (r.Ok? <==> v.initializer.None? && !v.symbol.descriptor.isPrimitive)
    ensures IsLateinitVariable(v.symbol) && v.initializer.Some? && LowerOptional(pass, v.initializer).Ok? ==>
              r == Err(LateinitWithInitializer)
    ensures IsLateinitVariable(v.symbol) && r.Ok? ==> r.value == Variable(v.symbol, Some(Const(Null)))
  {
    var initializer' :- LowerOptional(pass, v.initializer);
    if !IsLateinitVariable(v.symbol) then Ok(Variable(v.symbol, initializer'))
    else if initializer'.Some? then Err(LateinitWithInitializer)
    else if v.symbol.descriptor.isPrimitive then Err(LateinitPrimitiveType)
    else Ok(Variable(v.symbol, Some(Const(Null))))
  }

  /** The id of the temporary `transformGetter` introduces: any id other than the getter's
      dispatch receiver parameter will do. */
  function TemporaryId(dispatchReceiverParameter: Option<Symbol>): (id: nat)
    ensures dispatchReceiverParameter.Some? ==> id != dispatchReceiverParameter.value.id
  {
    match dispatchReceiverParameter
    case None => 0
    case Some(p) => p.id + 1
  }

  function TemporarySymbol(dispatchReceiverParameter: Option<Symbol>): Symbol
  {
    Symbol(TemporaryId(dispatchReceiverParameter), VariableDescriptor("tmp", false, false))
  }

  /** The field read of the getter: through the dispatch receiver parameter when there is one. */
  function GetterFieldRead(field: PropertyDescriptor, dispatchReceiverParameter: Option<Symbol>): Expr
  {
    match dispatchReceiverParameter
    case None => GetField(field, None)
    case Some(p) => GetField(field, Some(GetValue(p)))
  }

  /** `transformGetter`: the new getter body
        `val tmp = <field>; if (tmp != null) return tmp else throw(...)`. */
  function GetterBody(pass: Pass, field: PropertyDescriptor, dispatchReceiverParameter: Option<Symbol>): (r: Result<Expr>)
    ensures r.Ok? <==> !field.isPrimitive && ThrowUninitializedPropertyAccessException(pass, field.name).Ok?
    ensures field.isPrimitive ==> r == Err(LateinitPrimitiveType)
  {
    if field.isPrimitive then Err(LateinitPrimitiveType)
    else
      var t := TemporarySymbol(dispatchReceiverParameter);
      var raise :- ThrowUninitializedPropertyAccessException(pass, field.name);
      Ok(Block([VarStmt(Variable(t, Some(GetterFieldRead(field, dispatchReceiverParameter)))),
                ExprStmt(If(NotEquals(GetValue(t), Const(Null)), Return(GetValue(t)), Some(raise)))]))
  }
}
