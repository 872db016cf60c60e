/** The binder (TCC/Binder.cs). For each public member of a host class it
    generates a thunk, a dynamic method whose signature C can call, and
    registers it with the compiler under a lower-case C symbol name. A thunk
    unwraps its receiver and opaque arguments from GCHandles, performs the
    member access, and wraps an opaque result in a fresh GCHandle. */
module Binder {
  import opened Prelude
  import opened ClrTypes
  import opened IL
  import opened ILHelper

  /** A generated dynamic method: its boundary signature, its locals and
      its body. */
  datatype Thunk = Thunk(returnType: TypeDesc, parameterTypes: seq<TypeDesc>, locals: seq<TypeDesc>, code: seq<Instr>)

  /** A native symbol: a C name bound to a thunk. */
  datatype Symbol = Symbol(name: string, thunk: Thunk)

  /** How BindClass ends: normally, or with the NullReferenceException that
      dereferencing a null accessor raises. */
  datatype Outcome = Completed | NullReference

  // ---------------------------------------------------------------------
  // The thunks, as values

  /** The receiver parameter of an instance member: a handle. */
  function ReceiverParams(isStatic: bool): seq<TypeDesc>
  {
    if isStatic then [] else [IntPtr]
  }

  /** The boundary types of declared parameters. */
  function BoundaryParams(ps: seq<TypeDesc>): seq<TypeDesc>
  {
    seq(|ps|, i requires 0 <= i < |ps| => BoundaryType(ps[i]))
  }

  /** The marshalTypes list: each declared parameter, flagged when it
      arrives as a handle. */
  function MarshalPlan(ps: seq<TypeDesc>): seq<Slot>
  {
    seq(|ps|, i requires 0 <= i < |ps| => Slot(ps[i], !IsMarshallable(ps[i])))
  }

  /** A static member, or any member of a value type, is invoked with call;
      an instance member of a reference type with callvirt. */
  function Dispatch(isStatic: bool, klass: TypeDesc, callee: Callee): Instr
  {
    if isStatic || klass.isValueType then Call(callee) else Callvirt(callee)
  }

  /** What follows the member access for a result of type `t`. */
  function ReturnCode(t: TypeDesc): seq<Instr>
  {
    if IsMarshallable(t) then [] else WrapClassCode(t)
  }

  /** The body every thunk has: load the receiver and arguments as
      MarshalMethodArgs does, perform `op`, wrap an opaque result, return. */
  function ThunkCode(klass: TypeDesc, isStatic: bool, plan: seq<Slot>, op: Instr, result: TypeDesc): seq<Instr>
  {
    MarshalCode(klass, isStatic, plan, 0) + [op] + ReturnCode(result) + [Ret]
  }

  function MethodThunk(klass: TypeDesc, m: MethodDesc): Thunk
  {
    var plan := MarshalPlan(m.parameterTypes);
    Thunk(BoundaryType(m.returnType), ReceiverParams(m.isStatic) + BoundaryParams(m.parameterTypes),
          MarshalLocals(klass, m.isStatic, plan),
          ThunkCode(klass, m.isStatic, plan, Dispatch(m.isStatic, klass, MethodCallee(m)), m.returnType))
  }

  /** A constructor thunk has no receiver and returns the new object. */
  function ConstructorThunk(klass: TypeDesc, c: ConstructorDesc): Thunk
  {
    var plan := MarshalPlan(c.parameterTypes);
    Thunk(BoundaryType(klass), BoundaryParams(c.parameterTypes), MarshalLocals(klass, true, plan),
          ThunkCode(klass, true, plan, Newobj(c), klass))
  }

  function FieldGetterThunk(klass: TypeDesc, f: FieldDesc): Thunk
  {
    Thunk(BoundaryType(f.fieldType), ReceiverParams(f.isStatic), MarshalLocals(klass, f.isStatic, []),
          ThunkCode(klass, f.isStatic, [], if f.isStatic then Ldsfld(f) else Ldfld(f), f.fieldType))
  }

  /** A setter loads the new value as a one-parameter method would load its
      argument, and returns nothing. */
  function FieldSetterThunk(klass: TypeDesc, f: FieldDesc): Thunk
  {
    var plan := MarshalPlan([f.fieldType]);
    Thunk(Void, ReceiverParams(f.isStatic) + BoundaryParams([f.fieldType]), MarshalLocals(klass, f.isStatic, plan),
          ThunkCode(klass, f.isStatic, plan, if f.isStatic then Stsfld(f) else Stfld(f), Void))
  }

  /** PropertyInfo.GetGetMethod(): the get accessor when there is a public
      one, null otherwise. */
  function GetGetMethod(p: PropertyDesc): Option<Accessor>
  {
    if p.getter.Some? && p.getter.value.isPublic then p.getter else None
  }

  /** PropertyInfo.GetSetMethod(), likewise. */
  function GetSetMethod(p: PropertyDesc): Option<Accessor>
  {
    if p.setter.Some? && p.setter.value.isPublic then p.setter else None
  }

  /** The getter thunk; None stands for the NullReferenceException raised
      when there is no public get accessor to ask whether it is static. */
  function PropertyGetterThunk(klass: TypeDesc, p: PropertyDesc): Option<Thunk>
  {
    match GetGetMethod(p)
    case None => None
    case Some(g) =>
      Some(Thunk(BoundaryType(p.propertyType), ReceiverParams(g.isStatic), MarshalLocals(klass, g.isStatic, []),
                 ThunkCode(klass, g.isStatic, [], Dispatch(g.isStatic, klass, GetterCallee(p)), p.propertyType)))
  }

  function PropertySetterThunk(klass: TypeDesc, p: PropertyDesc): Option<Thunk>
  {
    match GetSetMethod(p)
    case None => None
    case Some(s) =>
      var plan := MarshalPlan([p.propertyType]);
      Some(Thunk(Void, ReceiverParams(s.isStatic) + BoundaryParams([p.propertyType]), MarshalLocals(klass, s.isStatic, plan),
                 ThunkCode(klass, s.isStatic, plan, Dispatch(s.isStatic, klass, SetterCallee(p)), Void)))
  }

  /** gc_free: turn the IntPtr argument back into its GCHandle and free it. */
  function GCFreeThunk(): Thunk
  {
    Thunk(Void, [IntPtr], [GCHandle], [Ldarg(0)] + GetGCHandleCode(0) + [HandleFree, Ret])
  }

  // ---------------------------------------------------------------------
  // The generators

  /** The parameter loop of GenerateMethod and GenerateConstructor: append
      each parameter's boundary type to `parameterTypesList` and record it
      in marshalTypes. */
  method AddParameters(parameterTypesList: seq<TypeDesc>, ps: seq<TypeDesc>)
    returns (list: seq<TypeDesc>, marshalTypes: seq<Slot>)
    ensures list == parameterTypesList + BoundaryParams(ps)
    ensures marshalTypes == MarshalPlan(ps)
  {
    list, marshalTypes := parameterTypesList, [];
    for i := 0 to |ps|
      invariant list == parameterTypesList + BoundaryParams(ps[..i])
      invariant marshalTypes == MarshalPlan(ps[..i])
    {
      PlanGrow(ps, i);
      AppendAssoc(parameterTypesList, BoundaryParams(ps[..i]), [BoundaryType(ps[i])]);
      var p := ps[i];
      if IsMarshallable(p) {
        list := list + [p];
        marshalTypes := marshalTypes + [Slot(p, false)];
      } else {
        list := list + [IntPtr];
        marshalTypes := marshalTypes + [Slot(p, true)];
      }
    }
    assert ps[..|ps|] == ps;
  }

  /** The boundary types and marshalTypes of one more parameter. */
  lemma PlanGrow(ps: seq<TypeDesc>, i: nat)
    requires i < |ps|
    ensures BoundaryParams(ps[..i + 1]) == BoundaryParams(ps[..i]) + [BoundaryType(ps[i])]
    ensures MarshalPlan(ps[..i + 1]) == MarshalPlan(ps[..i]) + [Slot(ps[i], !IsMarshallable(ps[i]))]
  {
  }

  /** Binder.GenerateConstructor. The source writes the argument loop out
      inline (TCC/Binder.cs:136-146); it emits exactly what
      MarshalMethodArgs emits with no receiver, so the model calls that. */
  method GenerateConstructor(klass: TypeDesc, ctor: ConstructorDesc) returns (thunk: Thunk)
    ensures thunk == ConstructorThunk(klass, ctor)
  {
    var isMarshallableReturn := IsMarshallable(klass);
    var parameterTypes, marshalTypes := AddParameters([], ctor.parameterTypes);
    var returnType := if isMarshallableReturn then klass else IntPtr;
    var il := new ILGenerator();
    MarshalMethodArgs(il, klass, true, marshalTypes);
    ghost var prologue := il.code;
    il.Emit(Newobj(ctor));
    ghost var call := il.code;
    if !isMarshallableReturn {
      WrapClass(il, klass);
    }
    il.Emit(Ret);
    thunk := Thunk(returnType, parameterTypes, il.locals, il.code);
    ConstructorThunkParts(klass, ctor, prologue, call, thunk);
  }

  /** Binder.GenerateMethod. The source writes the receiver and argument
      code out inline (TCC/Binder.cs:198-215); it emits exactly what
      MarshalMethodArgs emits, so the model calls that. */
  method GenerateMethod(klass: TypeDesc, meth: MethodDesc) returns (thunk: Thunk)
    ensures thunk == MethodThunk(klass, meth)
  {
    var isStatic := meth.isStatic;
    var isMarshallableReturn := IsMarshallable(meth.returnType);
    var parameterTypesList := [];
    if !isStatic {
      parameterTypesList := parameterTypesList + [IntPtr];
    }
    var parameterTypes, marshalTypes := AddParameters(parameterTypesList, meth.parameterTypes);
    var returnType := if isMarshallableReturn then meth.returnType else IntPtr;
    var il := new ILGenerator();
    MarshalMethodArgs(il, klass, isStatic, marshalTypes);
    ghost var prologue := il.code;
    if isStatic || klass.isValueType {
      il.Emit(Call(MethodCallee(meth)));
    } else {
      il.Emit(Callvirt(MethodCallee(meth)));
    }
    ghost var call := il.code;
    if !isMarshallableReturn {
      WrapClass(il, meth.returnType);
    }
    il.Emit(Ret);
    thunk := Thunk(returnType, parameterTypes, il.locals, il.code);
    MethodThunkParts(klass, meth, parameterTypesList, prologue, call, thunk);
  }

  /** Binder.GenerateFieldGetter. */
  method GenerateFieldGetter(klass: TypeDesc, field: FieldDesc) returns (thunk: Thunk)
    ensures thunk == FieldGetterThunk(klass, field)
  {
    var isStatic := field.isStatic;
    var isMarshallable := IsMarshallable(field.fieldType);
    var parameterTypes := if isStatic then [] else [IntPtr];
    var returnType := if isMarshallable then field.fieldType else IntPtr;
    var il := new ILGenerator();
    if !isStatic {
      il.Emit(Ldarg(0));
      GetClass(il, klass);
    }
    ghost var prologue := il.code;
    if !isStatic {
      il.Emit(Ldfld(field));
    } else {
      il.Emit(Ldsfld(field));
    }
    ghost var call := il.code;
    if !isMarshallable {
      WrapClass(il, field.fieldType);
    }
    il.Emit(Ret);
    thunk := Thunk(returnType, parameterTypes, il.locals, il.code);
    FieldGetterThunkParts(klass, field, prologue, call, thunk);
  }

  /** Binder.GenerateFieldSetter. */
  method GenerateFieldSetter(klass: TypeDesc, field: FieldDesc) returns (thunk: Thunk)
    ensures thunk == FieldSetterThunk(klass, field)
  {
    var isStatic := field.isStatic;
    var isMarshallable := IsMarshallable(field.fieldType);
    var inType := if isMarshallable then field.fieldType else IntPtr;
    var parameterTypes := if isStatic then [inType] else [IntPtr, inType];
    var returnType := Void;
    var il := new ILGenerator();
    SetterPrologue(il, klass, isStatic, field.fieldType);
    ghost var prologue := il.code;
    if !isStatic {
      il.Emit(Stfld(field));
    } else {
      il.Emit(Stsfld(field));
    }
    ghost var call := il.code;
    il.Emit(Ret);
    thunk := Thunk(returnType, parameterTypes, il.locals, il.code);
    FieldSetterThunkParts(klass, field, prologue, call, thunk);
  }

  /** Binder.GeneratePropertyGetter; None when the property has no public
      get accessor. */
  method GeneratePropertyGetter(klass: TypeDesc, property: PropertyDesc) returns (thunk: Option<Thunk>)
    ensures thunk == PropertyGetterThunk(klass, property)
  {
    var getter := GetGetMethod(property);
    if getter.None? {
      return None;
    }
    var isStatic := getter.value.isStatic;
    var isMarshallable := IsMarshallable(property.propertyType);
    var parameterTypes := if isStatic then [] else [IntPtr];
    var returnType := if isMarshallable then property.propertyType else IntPtr;
    var il := new ILGenerator();
    if !isStatic {
      il.Emit(Ldarg(0));
      GetClass(il, klass);
    }
    ghost var prologue := il.code;
    if isStatic || klass.isValueType {
      il.Emit(Call(GetterCallee(property)));
    } else {
      il.Emit(Callvirt(GetterCallee(property)));
    }
    ghost var call := il.code;
    if !isMarshallable {
      WrapClass(il, property.propertyType);
    }
    il.Emit(Ret);
    var t := Thunk(returnType, parameterTypes, il.locals, il.code);
    PropertyGetterThunkParts(klass, property, getter.value, prologue, call, t);
    thunk := Some(t);
  }

  /** Binder.GeneratePropertySetter; None when the property has no public
      set accessor. */
  method GeneratePropertySetter(klass: TypeDesc, property: PropertyDesc) returns (thunk: Option<Thunk>)
    ensures thunk == PropertySetterThunk(klass, property)
  {
    var setter := GetSetMethod(property);
    if setter.None? {
      return None;
    }
    var isStatic := setter.value.isStatic;
    var isMarshallable := IsMarshallable(property.propertyType);
    var inType := if isMarshallable then property.propertyType else IntPtr;
    var parameterTypes := if isStatic then [inType] else [IntPtr, inType];
    var returnType := Void;
    var il := new ILGenerator();
    SetterPrologue(il, klass, isStatic, property.propertyType);
    ghost var prologue := il.code;
    if isStatic || klass.isValueType {
      il.Emit(Call(SetterCallee(property)));
    } else {
      il.Emit(Callvirt(SetterCallee(property)));
    }
    ghost var call := il.code;
    il.Emit(Ret);
    var t := Thunk(returnType, parameterTypes, il.locals, il.code);
    PropertySetterThunkParts(klass, property, setter.value, prologue, call, t);
    thunk := Some(t);
  }

  /** The code both setters emit before the store: argument 0, the receiver
      unwrapped and argument 1 for an instance member, then the value
      unwrapped when it is opaque. This is the one-parameter marshalling. */
  method SetterPrologue(il: ILGenerator, klass: TypeDesc, isStatic: bool, valueType: TypeDesc)
    modifies il
    ensures il.code == old(il.code) + MarshalCode(klass, isStatic, MarshalPlan([valueType]), |old(il.locals)|)
    ensures il.locals == old(il.locals) + MarshalLocals(klass, isStatic, MarshalPlan([valueType]))
  {
    ghost var code0, locals0 := il.code, il.locals;
    var isMarshallable := IsMarshallable(valueType);
    il.Emit(Ldarg(0));
    if !isStatic {
      GetClass(il, klass);
      il.Emit(Ldarg(1));
    }
    ghost var code1, locals1 := il.code, il.locals;
    if !isMarshallable {
      GetClass(il, valueType);
    }
    SetterAssembly(klass, isStatic, valueType, code0, locals0, code1, locals1, il.code, il.locals);
  }

  /** The pieces SetterPrologue emits add up to the one-parameter
      marshalling code. */
  lemma SetterAssembly(klass: TypeDesc, isStatic: bool, valueType: TypeDesc,
                       code0: seq<Instr>, locals0: seq<TypeDesc>, code1: seq<Instr>, locals1: seq<TypeDesc>,
                       code2: seq<Instr>, locals2: seq<TypeDesc>)
    requires code1 == code0 + [Ldarg(0)] + (if isStatic then [] else GetClassCode(klass, |locals0|) + [Ldarg(1)])
    requires locals1 == locals0 + (if isStatic then [] else GetClassLocals(klass))
    requires IsMarshallable(valueType) ==> code2 == code1 && locals2 == locals1
    requires !IsMarshallable(valueType) ==>
               code2 == code1 + GetClassCode(valueType, |locals1|) && locals2 == locals1 + GetClassLocals(valueType)
    ensures code2 == code0 + MarshalCode(klass, isStatic, MarshalPlan([valueType]), |locals0|)
    ensures locals2 == locals0 + MarshalLocals(klass, isStatic, MarshalPlan([valueType]))
  {
    var s := Slot(valueType, !IsMarshallable(valueType));
    assert MarshalPlan([valueType]) == [s];
    if isStatic {
      ValueSlot(s, 0, code0, locals1, code1, code2, locals2);
      OneParameterStatic(klass, s, |locals0|);
    } else {
      InstanceSetterAssembly(klass, s, code0, locals0, code1, locals1, code2, locals2);
    }
  }

  lemma InstanceSetterAssembly(klass: TypeDesc, s: Slot, code0: seq<Instr>, locals0: seq<TypeDesc>,
                               code1: seq<Instr>, locals1: seq<TypeDesc>, code2: seq<Instr>, locals2: seq<TypeDesc>)
    requires code1 == code0 + [Ldarg(0)] + GetClassCode(klass, |locals0|) + [Ldarg(1)]
    requires locals1 == locals0 + GetClassLocals(klass)
    requires !s.wrapped ==> code2 == code1 && locals2 == locals1
    requires s.wrapped ==> code2 == code1 + GetClassCode(s.ty, |locals1|) && locals2 == locals1 + GetClassLocals(s.ty)
    ensures code2 == code0 + MarshalCode(klass, false, [s], |locals0|)
    ensures locals2 == locals0 + MarshalLocals(klass, false, [s])
  {
    var recv := SlotCode(Slot(klass, true), 0, |locals0|);
    assert code1 == code0 + recv + [Ldarg(1)];
    var value := SlotCode(s, 1, |locals1|);
    ValueSlot(s, 1, code0 + recv, locals1, code1, code2, locals2);
    assert code2 == (code0 + recv) + value;
    OneParameterInstance(klass, s, |locals0|);
    assert |locals1| == |locals0| + |GetClassLocals(klass)|;
    assert MarshalCode(klass, false, [s], |locals0|) == recv + value;
    AppendAssoc(code0, recv, value);
    AppendAssoc(locals0, GetClassLocals(klass), SlotLocals(s));
  }

  /** Ldarg(argc) followed by GetClass for a wrapped slot is the slot's
      code. */
  lemma ValueSlot(s: Slot, argc: nat, code0: seq<Instr>, locals1: seq<TypeDesc>,
                  code1: seq<Instr>, code2: seq<Instr>, locals2: seq<TypeDesc>)
    requires code1 == code0 + [Ldarg(argc)]
    requires !s.wrapped ==> code2 == code1 && locals2 == locals1
    requires s.wrapped ==> code2 == code1 + GetClassCode(s.ty, |locals1|) && locals2 == locals1 + GetClassLocals(s.ty)
    ensures code2 == code0 + SlotCode(s, argc, |locals1|) && locals2 == locals1 + SlotLocals(s)
  {
    if s.wrapped {
      AppendAssoc(code0, [Ldarg(argc)], GetClassCode(s.ty, |locals1|));
    }
  }

  /** The code for a receiver alone. */
  lemma ReceiverOnly(klass: TypeDesc, isStatic: bool)
    ensures MarshalCode(klass, isStatic, [], 0) == if isStatic then [] else [Ldarg(0)] + GetClassCode(klass, 0)
    ensures MarshalLocals(klass, isStatic, []) == if isStatic then [] else GetClassLocals(klass)
  {
    var ss := Slots(klass, isStatic, []);
    if !isStatic {
      assert ss == [Slot(klass, true)];
      assert ArgsCode(ss, 1, 0) == ArgsCode(ss, 0, 0) + SlotCode(ss[0], 0, 0);
      assert ArgsLocals(ss, 1) == ArgsLocals(ss, 0) + SlotLocals(ss[0]);
    } else {
      assert ss == [];
    }
  }

  /** The code for a static member and one slot `s`: the slot at
      argument 0. */
  lemma OneParameterStatic(klass: TypeDesc, s: Slot, base0: nat)
    ensures MarshalCode(klass, true, [s], base0) == SlotCode(s, 0, base0)
    ensures MarshalLocals(klass, true, [s]) == SlotLocals(s)
  {
    var ss := Slots(klass, true, [s]);
    assert ss == [s];
    ArgsCodeGrow(ss, 1, base0, base0);
    assert ArgsLocals(ss, 1) == ArgsLocals(ss, 0) + SlotLocals(ss[0]);
  }

  /** The code for an instance member and one slot `s`: the receiver's
      slot at argument 0, then `s` at argument 1. */
  lemma OneParameterInstance(klass: TypeDesc, s: Slot, base0: nat)
    ensures MarshalCode(klass, false, [s], base0)
            == SlotCode(Slot(klass, true), 0, base0) + SlotCode(s, 1, base0 + |GetClassLocals(klass)|)
    ensures MarshalLocals(klass, false, [s]) == GetClassLocals(klass) + SlotLocals(s)
  {
    var ss := Slots(klass, false, [s]);
    assert ss == [Slot(klass, true), s];
    var b1 := base0 + LocalsUsed(ss, 1);
    assert LocalsUsed(ss, 1) == |GetClassLocals(klass)|;
    ArgsCodeGrow(ss, 1, base0, base0);
    ArgsCodeGrow(ss, 2, base0, b1);
    assert ArgsCode(ss, 1, base0) == SlotCode(ss[0], 0, base0);
    assert ArgsLocals(ss, 1) == SlotLocals(ss[0]);
    assert ArgsLocals(ss, 2) == ArgsLocals(ss, 1) + SlotLocals(ss[1]);
  }

  // How the pieces each generator emits make up the thunk it specifies.

  lemma ConstructorThunkParts(klass: TypeDesc, c: ConstructorDesc, prologue: seq<Instr>, call: seq<Instr>, t: Thunk)
    requires prologue == MarshalCode(klass, true, MarshalPlan(c.parameterTypes), 0)
    requires call == prologue + [Newobj(c)]
    requires t.code == (if IsMarshallable(klass) then call else call + WrapClassCode(klass)) + [Ret]
    requires t.returnType == if IsMarshallable(klass) then klass else IntPtr
    requires t.parameterTypes == BoundaryParams(c.parameterTypes)
    requires t.locals == MarshalLocals(klass, true, MarshalPlan(c.parameterTypes))
    ensures t == ConstructorThunk(klass, c)
  {
    Assembled(klass, true, MarshalPlan(c.parameterTypes), Newobj(c), klass, prologue, call, t.code);
  }

  lemma MethodThunkParts(klass: TypeDesc, m: MethodDesc, receiver: seq<TypeDesc>, prologue: seq<Instr>,
                         call: seq<Instr>, t: Thunk)
    requires receiver == if m.isStatic then [] else [IntPtr]
    requires prologue == MarshalCode(klass, m.isStatic, MarshalPlan(m.parameterTypes), 0)
    requires call == prologue + [Dispatch(m.isStatic, klass, MethodCallee(m))]
    requires t.code == (if IsMarshallable(m.returnType) then call else call + WrapClassCode(m.returnType)) + [Ret]
    requires t.returnType == if IsMarshallable(m.returnType) then m.returnType else IntPtr
    requires t.parameterTypes == receiver + BoundaryParams(m.parameterTypes)
    requires t.locals == MarshalLocals(klass, m.isStatic, MarshalPlan(m.parameterTypes))
    ensures t == MethodThunk(klass, m)
  {
    Assembled(klass, m.isStatic, MarshalPlan(m.parameterTypes), Dispatch(m.isStatic, klass, MethodCallee(m)),
              m.returnType, prologue, call, t.code);
  }

  lemma FieldGetterThunkParts(klass: TypeDesc, f: FieldDesc, prologue: seq<Instr>, call: seq<Instr>, t: Thunk)
    requires prologue == if f.isStatic then [] else [Ldarg(0)] + GetClassCode(klass, 0)
    requires call == prologue + [if f.isStatic then Ldsfld(f) else Ldfld(f)]
    requires t.code == (if IsMarshallable(f.fieldType) then call else call + WrapClassCode(f.fieldType)) + [Ret]
    requires t.returnType == if IsMarshallable(f.fieldType) then f.fieldType else IntPtr
    requires t.parameterTypes == if f.isStatic then [] else [IntPtr]
    requires t.locals == if f.isStatic then [] else GetClassLocals(klass)
    ensures t == FieldGetterThunk(klass, f)
  {
    ReceiverOnly(klass, f.isStatic);
    Assembled(klass, f.isStatic, [], if f.isStatic then Ldsfld(f) else Ldfld(f), f.fieldType, prologue, call, t.code);
  }

  lemma FieldSetterThunkParts(klass: TypeDesc, f: FieldDesc, prologue: seq<Instr>, call: seq<Instr>, t: Thunk)
    requires prologue == MarshalCode(klass, f.isStatic, MarshalPlan([f.fieldType]), 0)
    requires call == prologue + [if f.isStatic then Stsfld(f) else Stfld(f)]
    requires t.code == call + [Ret]
    requires t.returnType == Void
    requires t.parameterTypes == if f.isStatic then [BoundaryType(f.fieldType)] else [IntPtr, BoundaryType(f.fieldType)]
    requires t.locals == MarshalLocals(klass, f.isStatic, MarshalPlan([f.fieldType]))
    ensures t == FieldSetterThunk(klass, f)
  {
    Assembled(klass, f.isStatic, MarshalPlan([f.fieldType]), if f.isStatic then Stsfld(f) else Stfld(f), Void,
              prologue, call, t.code);
    assert BoundaryParams([f.fieldType]) == [BoundaryType(f.fieldType)];
    assert ReceiverParams(f.isStatic) + [BoundaryType(f.fieldType)] == t.parameterTypes;
  }

  lemma PropertyGetterThunkParts(klass: TypeDesc, p: PropertyDesc, g: Accessor, prologue: seq<Instr>,
                                 call: seq<Instr>, t: Thunk)
    requires GetGetMethod(p) == Some(g)
    requires prologue == if g.isStatic then [] else [Ldarg(0)] + GetClassCode(klass, 0)
    requires call == prologue + [Dispatch(g.isStatic, klass, GetterCallee(p))]
    requires t.code == (if IsMarshallable(p.propertyType) then call else call + WrapClassCode(p.propertyType)) + [Ret]
    requires t.returnType == if IsMarshallable(p.propertyType) then p.propertyType else IntPtr
    requires t.parameterTypes == if g.isStatic then [] else [IntPtr]
    requires t.locals == if g.isStatic then [] else GetClassLocals(klass)
    ensures Some(t) == PropertyGetterThunk(klass, p)
  {
    ReceiverOnly(klass, g.isStatic);
    Assembled(klass, g.isStatic, [], Dispatch(g.isStatic, klass, GetterCallee(p)), p.propertyType, prologue, call, t.code);
  }

  lemma PropertySetterThunkParts(klass: TypeDesc, p: PropertyDesc, a: Accessor, prologue: seq<Instr>,
                                 call: seq<Instr>, t: Thunk)
    requires GetSetMethod(p) == Some(a)
    requires prologue == MarshalCode(klass, a.isStatic, MarshalPlan([p.propertyType]), 0)
    requires call == prologue + [Dispatch(a.isStatic, klass, SetterCallee(p))]
    requires t.code == call + [Ret]
    requires t.returnType == Void
    requires t.parameterTypes == if a.isStatic then [BoundaryType(p.propertyType)] else [IntPtr, BoundaryType(p.propertyType)]
    requires t.locals == MarshalLocals(klass, a.isStatic, MarshalPlan([p.propertyType]))
    ensures Some(t) == PropertySetterThunk(klass, p)
  {
    Assembled(klass, a.isStatic, MarshalPlan([p.propertyType]), Dispatch(a.isStatic, klass, SetterCallee(p)), Void,
              prologue, call, t.code);
    assert BoundaryParams([p.propertyType]) == [BoundaryType(p.propertyType)];
    assert ReceiverParams(a.isStatic) + [BoundaryType(p.propertyType)] == t.parameterTypes;
  }

  /** The code a generator has emitted once it has marshalled the
      arguments, performed `op`, wrapped the result if need be and returned. */
  lemma Assembled(klass: TypeDesc, isStatic: bool, plan: seq<Slot>, op: Instr, result: TypeDesc,
                  prologue: seq<Instr>, call: seq<Instr>, code: seq<Instr>)
    requires prologue == MarshalCode(klass, isStatic, plan, 0)
    requires call == prologue + [op]
    requires code == (if IsMarshallable(result) then call else call + WrapClassCode(result)) + [Ret]
    ensures code == ThunkCode(klass, isStatic, plan, op, result)
  {
    Concatenated(prologue, op, ReturnCode(result), call, code);
  }

  lemma Concatenated(body: seq<Instr>, op: Instr, epilogue: seq<Instr>, call: seq<Instr>, code: seq<Instr>)
    requires call == body + [op]
    requires code == call + epilogue + [Ret] || (epilogue == [] && code == call + [Ret])
    ensures code == body + [op] + epilogue + [Ret]
  {
  }

  /** Binder.GenerateGCFree. */
  method GenerateGCFree() returns (thunk: Thunk)
    ensures thunk == GCFreeThunk()
  {
    var parameterTypes := [IntPtr];
    var il := new ILGenerator();
    il.Emit(Ldarg(0));
    GetGCHandle(il);
    il.Emit(HandleFree);
    il.Emit(Ret);
    thunk := Thunk(Void, parameterTypes, il.locals, il.code);
  }

  // ---------------------------------------------------------------------
  // Symbol names and what BindClass registers

  // Symbol names, built as BindClass builds them from the lower-cased
  // class name `klassName`.

  function GetterName(klassName: string, memberName: string): string
  {
    klassName + "_get_" + memberName
  }

  function SetterName(klassName: string, memberName: string): string
  {
    klassName + "_set_" + memberName
  }

  function MethodName(klassName: string, memberName: string): string
  {
    klassName + "_" + memberName
  }

  /** The lower-cased simple names of the parameter types, run together. */
  function ParameterTypeNames(ps: seq<TypeDesc>): string
  {
    if ps == [] then "" else ParameterTypeNames(ps[..|ps| - 1]) + ToLower(ps[|ps| - 1].name)
  }

  /** `_new`, then `_` and the parameter type names when there are
      parameters. */
  function ConstructorSymbolName(klassName: string, c: ConstructorDesc): string
  {
    if |c.parameterTypes| > 0 then klassName + "_new" + "_" + ParameterTypeNames(c.parameterTypes)
    else klassName + "_new"
  }

  function MethodSymbol(klassName: string, klass: TypeDesc, m: MethodDesc): Symbol
  {
    Symbol(MethodName(klassName, ToLower(m.name)), MethodThunk(klass, m))
  }

  function FieldGetterSymbol(klassName: string, klass: TypeDesc, f: FieldDesc): Symbol
  {
    Symbol(GetterName(klassName, ToLower(f.name)), FieldGetterThunk(klass, f))
  }

  function FieldSetterSymbol(klassName: string, klass: TypeDesc, f: FieldDesc): Symbol
  {
    Symbol(SetterName(klassName, ToLower(f.name)), FieldSetterThunk(klass, f))
  }

  function ConstructorSymbol(klassName: string, klass: TypeDesc, c: ConstructorDesc): Symbol
  {
    Symbol(ConstructorSymbolName(klassName, c), ConstructorThunk(klass, c))
  }

  /** The symbols registered so far, and whether registration stopped at a
      NullReferenceException. */
  datatype Bindings = Bindings(symbols: seq<Symbol>, outcome: Outcome)

  /** A property BindClass cannot bind: GetGetMethod() or GetSetMethod()
      returns null for it. */
  predicate Unbindable(p: PropertyDesc)
  {
    GetGetMethod(p).None? || GetSetMethod(p).None?
  }

  /** One property: its getter, then its setter; a null accessor stops
      BindClass where it is dereferenced. */
  function PropertyBindings(klassName: string, klass: TypeDesc, p: PropertyDesc): Bindings
  {
    var name := ToLower(p.name);
    match PropertyGetterThunk(klass, p)
    case None => Bindings([], NullReference)
    case Some(getter) =>
      var get := Symbol(GetterName(klassName, name), getter);
      match PropertySetterThunk(klass, p)
      case None => Bindings([get], NullReference)
      case Some(setter) => Bindings([get, Symbol(SetterName(klassName, name), setter)], Completed)
  }

  /** The properties, in order, up to the first one that faults. */
  function PropertiesBindings(klassName: string, klass: TypeDesc, props: seq<PropertyDesc>): Bindings
  {
    if props == [] then Bindings([], Completed)
    else
      var before := PropertiesBindings(klassName, klass, props[..|props| - 1]);
      if before.outcome == NullReference then before
      else
        var last := PropertyBindings(klassName, klass, props[|props| - 1]);
        Bindings(before.symbols + last.symbols, last.outcome)
  }

  /** A public field's getter and setter. */
  function FieldSymbols(klassName: string, klass: TypeDesc, f: FieldDesc): seq<Symbol>
  {
    if f.isPublic then [FieldGetterSymbol(klassName, klass, f), FieldSetterSymbol(klassName, klass, f)] else []
  }

  function FieldsSymbols(klassName: string, klass: TypeDesc, fields: seq<FieldDesc>): seq<Symbol>
  {
    if fields == [] then []
    else FieldsSymbols(klassName, klass, fields[..|fields| - 1]) + FieldSymbols(klassName, klass, fields[|fields| - 1])
  }

  /** Each public method that is not an accessor or operator. */
  function MethodsSymbols(klassName: string, klass: TypeDesc, methods: seq<MethodDesc>): seq<Symbol>
  {
    if methods == [] then []
    else
      var m := methods[|methods| - 1];
      MethodsSymbols(klassName, klass, methods[..|methods| - 1])
      + (if m.isPublic && !m.isSpecialName then [MethodSymbol(klassName, klass, m)] else [])
  }

  /** Each public constructor. */
  function ConstructorsSymbols(klassName: string, klass: TypeDesc, ctors: seq<ConstructorDesc>): seq<Symbol>
  {
    if ctors == [] then []
    else
      var c := ctors[|ctors| - 1];
      ConstructorsSymbols(klassName, klass, ctors[..|ctors| - 1])
      + (if c.isPublic then [ConstructorSymbol(klassName, klass, c)] else [])
  }

  /** What BindClass registers for a class: properties, fields, methods and
      constructors, in that order; or the properties up to the one whose
      null accessor stops it. */
  function ClassBindings(c: ClassDesc): Bindings
  {
    var klassName := ToLower(c.typeDesc.name);
    var props := PropertiesBindings(klassName, c.typeDesc, c.properties);
    if props.outcome == NullReference then props
    else
      Bindings(props.symbols + FieldsSymbols(klassName, c.typeDesc, c.fields)
               + MethodsSymbols(klassName, c.typeDesc, c.methods)
               + ConstructorsSymbols(klassName, c.typeDesc, c.constructors), Completed)
  }

  /** The compiler's native symbol table: CC.AddSymbolNative hands each
      name and delegate to tcc_add_symbol. */
  class Compiler {
    var symbols: seq<Symbol>

    constructor ()
      ensures symbols == []
    {
      symbols := [];
    }

    method AddSymbolNative(name: string, thunk: Thunk)
      modifies this
      ensures symbols == old(symbols) + [Symbol(name, thunk)]
    {
      symbols := symbols + [Symbol(name, thunk)];
    }
  }

  class Binder {
    const compiler: Compiler

    /** Binding starts by registering gc_free. */
    constructor (tcc: Compiler)
      modifies tcc
      ensures compiler == tcc
      ensures tcc.symbols == old(tcc.symbols) + [Symbol("gc_free", GCFreeThunk())]
    {
      compiler := tcc;
      new;
      var gcFree := GenerateGCFree();
      tcc.AddSymbolNative("gc_free", gcFree);
    }

    /** Binder.BindClass: its four loops, over properties, fields, methods
        and constructors, are the four methods below. */
    method BindClass(klass: ClassDesc) returns (outcome: Outcome)
      modifies compiler
      ensures compiler.symbols == old(compiler.symbols) + ClassBindings(klass).symbols
      ensures outcome == ClassBindings(klass).outcome
    {
      var t := klass.typeDesc;
      var klassName := ToLower(t.name);
      ghost var start := compiler.symbols;
      outcome := BindProperties(klassName, t, klass.properties);
      if outcome == NullReference {
        return;
      }
      ghost var afterProps := compiler.symbols;
      BindFields(klassName, t, klass.fields);
      ghost var afterFields := compiler.symbols;
      BindMethods(klassName, t, klass.methods);
      ghost var afterMethods := compiler.symbols;
      BindConstructors(klassName, t, klass.constructors);
      ClassBindingsParts(klass, start, afterProps, afterFields, afterMethods, compiler.symbols);
    }

    /** The property loop of BindClass. */
    method BindProperties(klassName: string, t: TypeDesc, props: seq<PropertyDesc>) returns (outcome: Outcome)
      modifies compiler
      ensures compiler.symbols == old(compiler.symbols) + PropertiesBindings(klassName, t, props).symbols
      ensures outcome == PropertiesBindings(klassName, t, props).outcome
    {
      ghost var start := compiler.symbols;
      for i := 0 to |props|
        invariant PropertiesBindings(klassName, t, props[..i]).outcome == Completed
        invariant compiler.symbols == start + PropertiesBindings(klassName, t, props[..i]).symbols
      {
        var prop := props[i];
        var propName := ToLower(prop.name);
        ghost var before := compiler.symbols;
        PropertyBindingsCases(klassName, t, prop);
        var getter := GetGetMethod(prop);
        if getter.None? {
          PropertiesGrow(klassName, t, props, i, start, before, compiler.symbols);
          PropertiesFaultSticks(klassName, t, props, i + 1);
          return NullReference;
        }
        if getter.value.isPublic {
          var g := GeneratePropertyGetter(t, prop);
          compiler.AddSymbolNative(klassName + "_get_" + propName, g.value);
        }
        var setter := GetSetMethod(prop);
        if setter.None? {
          PropertiesGrow(klassName, t, props, i, start, before, compiler.symbols);
          PropertiesFaultSticks(klassName, t, props, i + 1);
          return NullReference;
        }
        if setter.value.isPublic {
          var st := GeneratePropertySetter(t, prop);
          compiler.AddSymbolNative(klassName + "_set_" + propName, st.value);
        }
        PropertiesGrow(klassName, t, props, i, start, before, compiler.symbols);
      }
      assert props[..|props|] == props;
      return Completed;
    }

    /** The field loop of BindClass. */
    method BindFields(klassName: string, t: TypeDesc, fields: seq<FieldDesc>)
      modifies compiler
      ensures compiler.symbols == old(compiler.symbols) + FieldsSymbols(klassName, t, fields)
    {
      ghost var start := compiler.symbols;
      for i := 0 to |fields|
        invariant compiler.symbols == start + FieldsSymbols(klassName, t, fields[..i])
      {
        var field := fields[i];
        var fieldName := ToLower(field.name);
        ghost var before := compiler.symbols;
        if field.isPublic {
          var getter := GenerateFieldGetter(t, field);
          compiler.AddSymbolNative(klassName + "_get_" + fieldName, getter);
          ghost var withGetter := compiler.symbols;
          var setter := GenerateFieldSetter(t, field);
          compiler.AddSymbolNative(klassName + "_set_" + fieldName, setter);
          AppendAssoc(before, [withGetter[|withGetter| - 1]], [compiler.symbols[|compiler.symbols| - 1]]);
        }
        FieldsGrow(klassName, t, fields, i, start, before, compiler.symbols);
      }
      assert fields[..|fields|] == fields;
    }

    /** The method loop of BindClass. */
    method BindMethods(klassName: string, t: TypeDesc, methods: seq<MethodDesc>)
      modifies compiler
      ensures compiler.symbols == old(compiler.symbols) + MethodsSymbols(klassName, t, methods)
    {
      ghost var start := compiler.symbols;
      for i := 0 to |methods|
        invariant compiler.symbols == start + MethodsSymbols(klassName, t, methods[..i])
      {
        var meth := methods[i];
        var methodName := ToLower(meth.name);
        ghost var before := compiler.symbols;
        if meth.isPublic && !meth.isSpecialName {
          var thunk := GenerateMethod(t, meth);
          compiler.AddSymbolNative(klassName + "_" + methodName, thunk);
        }
        MethodsGrow(klassName, t, methods, i, start, before, compiler.symbols);
      }
      assert methods[..|methods|] == methods;
    }

    /** The constructor loop of BindClass. */
    method BindConstructors(klassName: string, t: TypeDesc, ctors: seq<ConstructorDesc>)
      modifies compiler
      ensures compiler.symbols == old(compiler.symbols) + ConstructorsSymbols(klassName, t, ctors)
    {
      ghost var start := compiler.symbols;
      for i := 0 to |ctors|
        invariant compiler.symbols == start + ConstructorsSymbols(klassName, t, ctors[..i])
      {
        var ctor := ctors[i];
        var constructorName := ConstructorName(ctor.parameterTypes);
        ghost var before := compiler.symbols;
        if ctor.isPublic {
          var symbolName := klassName + "_new";
          if |ctor.parameterTypes| > 0 {
            symbolName := symbolName + "_" + constructorName;
          }
          var thunk := GenerateConstructor(t, ctor);
          compiler.AddSymbolNative(symbolName, thunk);
        }
        ConstructorsGrow(klassName, t, ctors, i, start, before, compiler.symbols);
      }
      assert ctors[..|ctors|] == ctors;
    }
  }

  // One more member of each kind, on plain values.

  lemma PropertiesGrow(klassName: string, t: TypeDesc, props: seq<PropertyDesc>, i: nat,
                       start: seq<Symbol>, before: seq<Symbol>, after: seq<Symbol>)
    requires i < |props|
    requires PropertiesBindings(klassName, t, props[..i]).outcome == Completed
    requires before == start + PropertiesBindings(klassName, t, props[..i]).symbols
    requires after == before + PropertyBindings(klassName, t, props[i]).symbols
    ensures after == start + PropertiesBindings(klassName, t, props[..i + 1]).symbols
    ensures PropertiesBindings(klassName, t, props[..i + 1]).outcome == PropertyBindings(klassName, t, props[i]).outcome
  {
    assert props[..i + 1][..i] == props[..i];
    AppendAssoc(start, PropertiesBindings(klassName, t, props[..i]).symbols, PropertyBindings(klassName, t, props[i]).symbols);
  }

  /** PropertyBindings, case by case, in the terms BindClass uses. */
  lemma PropertyBindingsCases(klassName: string, t: TypeDesc, p: PropertyDesc)
    ensures GetGetMethod(p).None? ==> PropertyBindings(klassName, t, p) == Bindings([], NullReference)
    ensures GetGetMethod(p).Some? ==> GetGetMethod(p).value.isPublic && PropertyGetterThunk(t, p).Some?
    ensures GetSetMethod(p).Some? ==> GetSetMethod(p).value.isPublic && PropertySetterThunk(t, p).Some?
    ensures GetGetMethod(p).Some? && GetSetMethod(p).None? ==>
              PropertyBindings(klassName, t, p)
              == Bindings([Symbol(klassName + "_get_" + ToLower(p.name), PropertyGetterThunk(t, p).value)], NullReference)
    ensures GetGetMethod(p).Some? && GetSetMethod(p).Some? ==>
              PropertyBindings(klassName, t, p)
              == Bindings([Symbol(klassName + "_get_" + ToLower(p.name), PropertyGetterThunk(t, p).value),
                           Symbol(klassName + "_set_" + ToLower(p.name), PropertySetterThunk(t, p).value)], Completed)
  {
  }

  lemma FieldsGrow(klassName: string, t: TypeDesc, fields: seq<FieldDesc>, i: nat,
                   start: seq<Symbol>, before: seq<Symbol>, after: seq<Symbol>)
    requires i < |fields|
    requires before == start + FieldsSymbols(klassName, t, fields[..i])
    requires after == before + FieldSymbols(klassName, t, fields[i])
    ensures after == start + FieldsSymbols(klassName, t, fields[..i + 1])
  {
    assert fields[..i + 1][..i] == fields[..i];
    AppendAssoc(start, FieldsSymbols(klassName, t, fields[..i]), FieldSymbols(klassName, t, fields[i]));
  }

  lemma MethodsGrow(klassName: string, t: TypeDesc, methods: seq<MethodDesc>, i: nat,
                    start: seq<Symbol>, before: seq<Symbol>, after: seq<Symbol>)
    requires i < |methods|
    requires before == start + MethodsSymbols(klassName, t, methods[..i])
    requires !(methods[i].isPublic && !methods[i].isSpecialName) ==> after == before
    requires methods[i].isPublic && !methods[i].isSpecialName ==>
               after == before + [Symbol(klassName + "_" + ToLower(methods[i].name), MethodThunk(t, methods[i]))]
    ensures after == start + MethodsSymbols(klassName, t, methods[..i + 1])
  {
    assert methods[..i + 1][..i] == methods[..i];
    var added := if methods[i].isPublic && !methods[i].isSpecialName then [MethodSymbol(klassName, t, methods[i])] else [];
    assert after == before + added;
    AppendAssoc(start, MethodsSymbols(klassName, t, methods[..i]), added);
  }

  lemma ConstructorsGrow(klassName: string, t: TypeDesc, ctors: seq<ConstructorDesc>, i: nat,
                         start: seq<Symbol>, before: seq<Symbol>, after: seq<Symbol>)
    requires i < |ctors|
    requires before == start + ConstructorsSymbols(klassName, t, ctors[..i])
    requires !ctors[i].isPublic ==> after == before
    requires ctors[i].isPublic ==>
               after == before + [Symbol(ConstructorSymbolName(klassName, ctors[i]), ConstructorThunk(t, ctors[i]))]
    ensures after == start + ConstructorsSymbols(klassName, t, ctors[..i + 1])
  {
    assert ctors[..i + 1][..i] == ctors[..i];
    var added := if ctors[i].isPublic then [ConstructorSymbol(klassName, t, ctors[i])] else [];
    assert after == before + added;
    AppendAssoc(start, ConstructorsSymbols(klassName, t, ctors[..i]), added);
  }

  /** The four sections BindClass registers, one after the other. */
  lemma ClassBindingsParts(c: ClassDesc, start: seq<Symbol>, afterProps: seq<Symbol>, afterFields: seq<Symbol>,
                           afterMethods: seq<Symbol>, final: seq<Symbol>)
    requires var klassName := ToLower(c.typeDesc.name);
      && PropertiesBindings(klassName, c.typeDesc, c.properties).outcome == Completed
      && afterProps == start + PropertiesBindings(klassName, c.typeDesc, c.properties).symbols
      && afterFields == afterProps + FieldsSymbols(klassName, c.typeDesc, c.fields)
      && afterMethods == afterFields + MethodsSymbols(klassName, c.typeDesc, c.methods)
      && final == afterMethods + ConstructorsSymbols(klassName, c.typeDesc, c.constructors)
    ensures final == start + ClassBindings(c).symbols && ClassBindings(c).outcome == Completed
  {
    var klassName := ToLower(c.typeDesc.name);
    var p := PropertiesBindings(klassName, c.typeDesc, c.properties).symbols;
    var f := FieldsSymbols(klassName, c.typeDesc, c.fields);
    var m := MethodsSymbols(klassName, c.typeDesc, c.methods);
    var k := ConstructorsSymbols(klassName, c.typeDesc, c.constructors);
    assert final == start + p + f + m + k;
    assert ClassBindings(c).symbols == p + f + m + k;
    AppendAssoc(start, p, f);
    AppendAssoc(start, p + f, m);
    AppendAssoc(start, p + f + m, k);
  }

  /** The loop that builds a constructor's name from its parameter types. */
  method ConstructorName(parameters: seq<TypeDesc>) returns (constructorName: string)
    ensures constructorName == ParameterTypeNames(parameters)
  {
    constructorName := "";
    for i := 0 to |parameters|
      invariant constructorName == ParameterTypeNames(parameters[..i])
    {
      assert parameters[..i + 1][..i] == parameters[..i];
      constructorName := constructorName + ToLower(parameters[i].name);
    }
    assert parameters[..|parameters|] == parameters;
  }

  /** Once a property has faulted, the later ones change nothing. */
  lemma {:induction false} PropertiesFaultSticks(klassName: string, klass: TypeDesc, props: seq<PropertyDesc>, n: nat)
    requires n <= |props|
    requires PropertiesBindings(klassName, klass, props[..n]).outcome == NullReference
    ensures PropertiesBindings(klassName, klass, props) == PropertiesBindings(klassName, klass, props[..n])
    decreases |props| - n
  {
    if n == |props| {
      assert props[..n] == props;
    } else {
      assert props[..n + 1][..n] == props[..n];
      PropertiesFaultSticks(klassName, klass, props, n + 1);
    }
  }
}
