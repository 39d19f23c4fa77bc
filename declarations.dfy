/** The declaration-level part of the pass, which updates IR objects in place: a backing
    field's initializer, an accessor's body, and the file-level driver that visits every
    declaration of a file once. */
module Declarations {
  import opened Ir
  import opened Lowering

  datatype Status = Done | Aborted(error: Fatal)

  /** The backing field of a property. Its descriptor is the property's descriptor. */
  class IrField {
    const descriptor: PropertyDescriptor
    var initializer: Option<Expr>

    constructor (descriptor: PropertyDescriptor, initializer: Option<Expr>)
      ensures this.descriptor == descriptor && this.initializer == initializer
    {
      this.descriptor := descriptor;
      this.initializer := initializer;
    }
  }

  /** A function (here: a top-level function or a property accessor); its body is a block. */
  class IrFunction {
    const symbol: FunctionSymbol
    const dispatchReceiverParameter: Option<Symbol>
    var body: Option<Expr>

    constructor (symbol: FunctionSymbol, dispatchReceiverParameter: Option<Symbol>, body: Option<Expr>)
      ensures this.symbol == symbol && this.dispatchReceiverParameter == dispatchReceiverParameter
      ensures this.body == body
    {
      this.symbol := symbol;
      this.dispatchReceiverParameter := dispatchReceiverParameter;
      this.body := body;
    }
  }

  /** A property and the objects it owns. */
  datatype IrProperty = IrProperty(descriptor: PropertyDescriptor, backingField: Option<IrField>,
                                   getter: Option<IrFunction>, setter: Option<IrFunction>)

  datatype Declaration =
    | FunctionDeclaration(irFunction: IrFunction)
    | PropertyDeclaration(property: IrProperty)

  ghost function PropertyObjects(p: IrProperty): set<object>
  {
    (if p.backingField.Some? then {p.backingField.value} else {}) +
    (if p.getter.Some? then {p.getter.value} else {}) +
    (if p.setter.Some? then {p.setter.value} else {})
  }

  ghost function Objects(d: Declaration): set<object>
  {
    match d
    case FunctionDeclaration(f) => {f}
    case PropertyDeclaration(p) => PropertyObjects(p)
  }

  ghost function FileObjects(declarations: seq<Declaration>): set<object>
  {
    set i, o | 0 <= i < |declarations| && o in Objects(declarations[i]) :: o
  }

  /** The IR is a tree: a property's getter and setter are different functions, and no object
      belongs to two declarations. */
  ghost predicate TreeShaped(declarations: seq<Declaration>)
  {
    (forall i :: 0 <= i < |declarations| && declarations[i].PropertyDeclaration? ==>
       WellFormedProperty(declarations[i].property)) &&
    (forall i, j :: 0 <= i < j < |declarations| ==> Objects(declarations[i]) !! Objects(declarations[j]))
  }

  ghost predicate WellFormedProperty(p: IrProperty)
  {
    p.getter.Some? && p.setter.Some? ==> p.getter.value != p.setter.value
  }

  /** The mutable part of a declaration, as a value: a function's body, or a property's
      backing-field initializer and accessor bodies (None for an absent object). */
  datatype DeclarationState =
    | FunctionState(body: Option<Expr>)
    | PropertyState(initializer: Option<Expr>, getterBody: Option<Expr>, setterBody: Option<Expr>)

  function BodyOf(f: Option<IrFunction>): Option<Expr>
    reads if f.Some? then {f.value} else {}
  {
    if f.Some? then f.value.body else None
  }

  function PropertyStateOf(p: IrProperty): (s: DeclarationState)
    reads PropertyObjects(p)
    ensures s.PropertyState?
  {
    PropertyState(if p.backingField.Some? then p.backingField.value.initializer else None,
                  BodyOf(p.getter), BodyOf(p.setter))
  }

  function StateOf(d: Declaration): DeclarationState
    reads Objects(d)
  {
    match d
    case FunctionDeclaration(f) => FunctionState(f.body)
    case PropertyDeclaration(p) => PropertyStateOf(p)
  }

  function IsLateinitReal(p: IrProperty): bool
  {
    p.descriptor.isLateInit && p.descriptor.isReal
  }

  /** `visitProperty` succeeds on `p` when its mutable part is `s`: every child lowers, and a
      lateinit real property has a backing field without initializer and a getter whose
      checked body can be built. */
  predicate PropertyLowersFrom(pass: Pass, p: IrProperty, s: DeclarationState)
    requires s.PropertyState?
  {
    LowerOptional(pass, s.initializer).Ok? && LowerOptional(pass, s.getterBody).Ok? &&
    LowerOptional(pass, s.setterBody).Ok? &&
    (IsLateinitReal(p) ==>
       p.backingField.Some? && p.getter.Some? &&
       GetterBody(pass, p.backingField.value.descriptor, p.getter.value.dispatchReceiverParameter).Ok? &&
       s.initializer.None?)
  }

  /** The state `visitProperty` leaves behind (`after`), relative to the state before it. */
  predicate PropertyLoweredFrom(pass: Pass, p: IrProperty, before: DeclarationState, after: DeclarationState)
    requires before.PropertyState? && after.PropertyState?
  {
    PropertyLowersFrom(pass, p, before) &&
    (p.backingField.Some? ==>
       after.initializer ==
         if IsLateinitReal(p) then Some(Const(Null)) else LowerOptional(pass, before.initializer).value) &&
    (p.getter.Some? ==>
       after.getterBody ==
         if IsLateinitReal(p)
         then Some(GetterBody(pass, p.backingField.value.descriptor, p.getter.value.dispatchReceiverParameter).value)
         else LowerOptional(pass, before.getterBody).value) &&
    (p.setter.Some? ==> after.setterBody == LowerOptional(pass, before.setterBody).value)
  }

  /** `transformChildrenVoid` on an accessor or function: its body is lowered in place. */
  method LowerFunctionBody(pass: Pass, f: IrFunction) returns (status: Status)
    modifies f
    ensures status.Done? <==> LowerOptional(pass, old(f.body)).Ok?
    ensures status.Done? ==> f.body == LowerOptional(pass, old(f.body)).value
    ensures status.Aborted? ==> status.error == LowerOptional(pass, old(f.body)).error
  {
    var lowered := LowerOptional(pass, f.body);
    if lowered.Err? {
      return Aborted(lowered.error);
    }
    f.body := lowered.value;
    return Done;
  }

  /** `transformChildrenVoid` on a backing field: its initializer is lowered in place. */
  method LowerFieldInitializer(pass: Pass, f: IrField) returns (status: Status)
    modifies f
    ensures status.Done? <==> LowerOptional(pass, old(f.initializer)).Ok?
    ensures status.Done? ==> f.initializer == LowerOptional(pass, old(f.initializer)).value
    ensures status.Aborted? ==> status.error == LowerOptional(pass, old(f.initializer)).error
  {
    var lowered := LowerOptional(pass, f.initializer);
    if lowered.Err? {
      return Aborted(lowered.error);
    }
    f.initializer := lowered.value;
    return Done;
  }

  /** `transformGetter`: the getter's body is replaced by the checked read of the backing field. */
  method TransformGetter(pass: Pass, backingField: PropertyDescriptor, getter: IrFunction) returns (status: Status)
    modifies getter
    ensures status.Done? <==> GetterBody(pass, backingField, getter.dispatchReceiverParameter).Ok?
    ensures status.Done? ==> getter.body == Some(GetterBody(pass, backingField, getter.dispatchReceiverParameter).value)
    ensures status.Aborted? ==> status.error == GetterBody(pass, backingField, getter.dispatchReceiverParameter).error &&
                                getter.body == old(getter.body)
  {
    var body := GetterBody(pass, backingField, getter.dispatchReceiverParameter);
    if body.Err? {
      return Aborted(body.error);
    }
    getter.body := Some(body.value);
    return Done;
  }

  /** `visitProperty`: the children are lowered first; a lateinit real property then gets the
      checked getter and a null initializer on its backing field, which must have had none. */
  method VisitProperty(pass: Pass, p: IrProperty) returns (status: Status)
    requires WellFormedProperty(p)
    modifies PropertyObjects(p)
    ensures status.Done? <==> PropertyLowersFrom(pass, p, old(PropertyStateOf(p)))
    ensures status.Done? ==> PropertyLoweredFrom(pass, p, old(PropertyStateOf(p)), PropertyStateOf(p))
    ensures IsLateinitReal(p) && LowerOptional(pass, old(PropertyStateOf(p)).initializer).Ok? &&
            LowerOptional(pass, old(PropertyStateOf(p)).getterBody).Ok? &&
            LowerOptional(pass, old(PropertyStateOf(p)).setterBody).Ok? ==>
              (p.backingField.None? ==> status == Aborted(MissingBackingField)) &&
              (p.backingField.Some? && p.getter.None? ==> status == Aborted(MissingGetter))
  {
    if p.backingField.Some? {
      status := LowerFieldInitializer(pass, p.backingField.value);
      if status.Aborted? {
        return;
      }
    }
    if p.getter.Some? {
      status := LowerFunctionBody(pass, p.getter.value);
      if status.Aborted? {
        return;
      }
    }
    if p.setter.Some? {
      status := LowerFunctionBody(pass, p.setter.value);
      if status.Aborted? {
        return;
      }
    }
    if !IsLateinitReal(p) {
      return Done;
    }
    if p.backingField.None? {
      return Aborted(MissingBackingField);
    }
    var backingField := p.backingField.value;
    if p.getter.None? {
      return Aborted(MissingGetter);
    }
    status := TransformGetter(pass, backingField.descriptor, p.getter.value);
    if status.Aborted? {
      return;
    }
    if backingField.initializer.Some? {
      return Aborted(LateinitWithInitializer);
    }
    backingField.initializer := Some(Const(Null));
    return Done;
  }

  /** The visit of declaration `d` succeeds when its mutable part is `s`. */
  predicate LowersFrom(pass: Pass, d: Declaration, s: DeclarationState)
  {
    match d
    case FunctionDeclaration(_) => s.FunctionState? && LowerOptional(pass, s.body).Ok?
    case PropertyDeclaration(p) => s.PropertyState? && PropertyLowersFrom(pass, p, s)
  }

  /** The visit of declaration `d` took its mutable part from `before` to `after`. */
  predicate LoweredFrom(pass: Pass, d: Declaration, before: DeclarationState, after: DeclarationState)
  {
    match d
    case FunctionDeclaration(_) =>
      before.FunctionState? && after.FunctionState? &&
      LowerOptional(pass, before.body).Ok? && after.body == LowerOptional(pass, before.body).value
    case PropertyDeclaration(p) =>
      before.PropertyState? && after.PropertyState? && PropertyLoweredFrom(pass, p, before, after)
  }

  /** The visit of one file-level declaration. */
  method VisitDeclaration(pass: Pass, d: Declaration) returns (status: Status)
    requires d.PropertyDeclaration? ==> WellFormedProperty(d.property)
    modifies Objects(d)
    ensures status.Done? <==> LowersFrom(pass, d, old(StateOf(d)))
    ensures status.Done? ==> LoweredFrom(pass, d, old(StateOf(d)), StateOf(d))
  {
    match d {
      case FunctionDeclaration(f) =>
        status := LowerFunctionBody(pass, f);
      case PropertyDeclaration(p) =>
        status := VisitProperty(pass, p);
    }
  }

  /** `lower(irFile)`: every declaration of the file is visited once, in order; the first
      fatal error aborts the file. */
  method Lower(pass: Pass, declarations: seq<Declaration>) returns (status: Status)
    requires TreeShaped(declarations)
    modifies FileObjects(declarations)
    ensures status.Done? <==>
              forall i :: 0 <= i < |declarations| ==> LowersFrom(pass, declarations[i], old(StateOf(declarations[i])))
    ensures status.Done? ==>
              forall i :: 0 <= i < |declarations| ==>
                LoweredFrom(pass, declarations[i], old(StateOf(declarations[i])), StateOf(declarations[i]))
  {
    var i := 0;
    while i < |declarations|
      invariant 0 <= i <= |declarations|
      invariant forall j :: 0 <= j < i ==> LowersFrom(pass, declarations[j], old(StateOf(declarations[j])))
      invariant forall j :: 0 <= j < i ==>
                  LoweredFrom(pass, declarations[j], old(StateOf(declarations[j])), StateOf(declarations[j]))
      invariant forall j :: i <= j < |declarations| ==> StateOf(declarations[j]) == old(StateOf(declarations[j]))
    {
      var d := declarations[i];
      assert Objects(d) <= FileObjects(declarations);
      ghost var k := i;
      label beforeVisit:
      status := VisitDeclaration(pass, d);
      if status.Aborted? {
        return;
      }
      forall j | 0 <= j < |declarations| && j != k
        ensures StateOf(declarations[j]) == old@beforeVisit(StateOf(declarations[j]))
      {
        assert Objects(declarations[j]) !! Objects(d);
      }
      i := i + 1;
    }
    return Done;
  }
}
