/** What the binder promises about the thunks it generates and the symbols
    it registers: the shape of every thunk body, what running it does to
    the handle table, and which C names BindClass binds. */
module BinderFacts {
  import opened Prelude
  import opened ClrTypes
  import opened IL
  import opened ILHelper
  import opened Binder

  // ---------------------------------------------------------------------
  // The shape of a thunk body

  /** An instruction that reaches into a host member. */
  predicate IsMemberAccess(i: Instr)
  {
    i.Call? || i.Callvirt? || i.Newobj? || i.Ldfld? || i.Ldsfld? || i.Stfld? || i.Stsfld?
  }

  /** The instructions that follow the member access. */
  lemma ReturnCodeContents(t: TypeDesc)
    ensures forall i :: i in ReturnCode(t) ==> i.Box? || i == HandleAlloc || i == HandleToIntPtr
    ensures HandleAlloc in ReturnCode(t) <==> !IsMarshallable(t)
  {
  }

  /** A body made of marshalling code, one member access, code from
      ReturnCode and a Ret. */
  lemma {:induction false} BodyLayout(marshal: seq<Instr>, op: Instr, ret: seq<Instr>)
    requires forall i :: i in marshal ==> IsMarshalling(i)
    requires forall i :: i in ret ==> i.Box? || i == HandleAlloc || i == HandleToIntPtr
    requires IsMemberAccess(op)
    ensures var code := marshal + [op] + ret + [Ret];
      var k := |marshal|;
      k < |code| && code[..k] == marshal && code[k] == op && code[k + 1..] == ret + [Ret]
      && (forall j :: 0 <= j < |code| && IsMemberAccess(code[j]) ==> j == k)
      && (forall j :: 0 <= j < |code| && code[j] == Ret ==> j == |code| - 1)
      && (HandleAlloc in code <==> HandleAlloc in ret) && HandleFree !in code
      && (HandleTarget in code <==> HandleTarget in marshal)
  {
    var code := marshal + [op] + ret + [Ret];
    var k := |marshal|;
    forall j | 0 <= j < |code|
      ensures (IsMemberAccess(code[j]) ==> j == k) && (code[j] == Ret ==> j == |code| - 1)
    {
      if j < k {
        assert code[j] == marshal[j] && marshal[j] in marshal;
      } else if k < j < |code| - 1 {
        assert code[j] == ret[j - k - 1] && ret[j - k - 1] in ret;
      }
    }
    assert code[k + 1..] == ret + [Ret];
    assert forall i :: i in code <==> i in marshal || i == op || i in ret || i == Ret;
  }

  /** A thunk accesses its member exactly once, right after the marshalling
      code, and returns at its very end and nowhere else. */
  lemma ThunkCodeLayout(klass: TypeDesc, isStatic: bool, plan: seq<Slot>, op: Instr, result: TypeDesc)
    requires IsMemberAccess(op)
    ensures var code := ThunkCode(klass, isStatic, plan, op, result);
      var k := |MarshalCode(klass, isStatic, plan, 0)|;
      k < |code| && code[..k] == MarshalCode(klass, isStatic, plan, 0) && code[k] == op
      && code[k + 1..] == ReturnCode(result) + [Ret]
      && (forall j :: 0 <= j < |code| && IsMemberAccess(code[j]) ==> j == k)
      && (forall j :: 0 <= j < |code| && code[j] == Ret ==> j == |code| - 1)
  {
    MarshalOnlyMarshalling(klass, isStatic, plan);
    ReturnCodeContents(result);
    BodyLayout(MarshalCode(klass, isStatic, plan, 0), op, ReturnCode(result));
  }

  lemma MarshalOnlyMarshalling(klass: TypeDesc, isStatic: bool, plan: seq<Slot>)
    ensures forall i :: i in MarshalCode(klass, isStatic, plan, 0) ==> IsMarshalling(i)
  {
    var ss := Slots(klass, isStatic, plan);
    ArgsOnlyMarshalling(ss, |ss|, 0);
  }

  /** What a thunk does with handles: it allocates one exactly when its
      result is opaque, never frees one, and resolves one exactly when it
      has a receiver or a parameter that arrives wrapped. */
  lemma ThunkCodeHandles(klass: TypeDesc, isStatic: bool, plan: seq<Slot>, op: Instr, result: TypeDesc)
    requires IsMemberAccess(op)
    ensures var code := ThunkCode(klass, isStatic, plan, op, result);
      (HandleAlloc in code <==> !IsMarshallable(result))
      && HandleFree !in code
      && (HandleTarget in code <==> !isStatic || exists j :: 0 <= j < |plan| && plan[j].wrapped)
  {
    var marshal := MarshalCode(klass, isStatic, plan, 0);
    MarshalOnlyMarshalling(klass, isStatic, plan);
    ReturnCodeContents(result);
    BodyLayout(marshal, op, ReturnCode(result));
    MarshalUnwrapIff(klass, isStatic, plan, 0);
  }

  // ---------------------------------------------------------------------
  // Signatures and the member each thunk accesses

  /** Every type in a boundary signature crosses the boundary directly. */
  predicate CallableFromC(t: Thunk)
  {
    IsMarshallable(t.returnType) && forall i :: 0 <= i < |t.parameterTypes| ==> IsMarshallable(t.parameterTypes[i])
  }

  /** The boundary types of the declared parameters follow the receiver,
      one for one. */
  lemma BoundaryParamsFacts(receiver: seq<TypeDesc>, ps: seq<TypeDesc>)
    ensures var all := receiver + BoundaryParams(ps);
      |all| == |receiver| + |ps|
      && (forall i :: 0 <= i < |ps| ==> all[|receiver| + i] == BoundaryType(ps[i]))
      && (forall i :: 0 <= i < |ps| ==> IsMarshallable(BoundaryParams(ps)[i]))
  {
  }

  /** A method thunk takes a receiver handle for an instance method, then
      one boundary parameter per declared parameter, and returns the
      boundary type of the method's result. */
  lemma MethodThunkSignature(klass: TypeDesc, m: MethodDesc)
    ensures |MethodThunk(klass, m).parameterTypes| == (if m.isStatic then 0 else 1) + |m.parameterTypes|
    ensures !m.isStatic ==> MethodThunk(klass, m).parameterTypes[0] == IntPtr
    ensures MethodThunk(klass, m).returnType == BoundaryType(m.returnType)
  {
    MethodThunkParameters(klass, m);
    BoundaryOnly(BoundaryParams(m.parameterTypes), m.parameterTypes);
  }

  /** The declared parameters of a method thunk follow the receiver, each
      as its boundary type. */
  lemma MethodThunkParameterTypes(klass: TypeDesc, m: MethodDesc)
    ensures forall i :: 0 <= i < |m.parameterTypes| ==>
      MethodThunk(klass, m).parameterTypes[(if m.isStatic then 0 else 1) + i] == BoundaryType(m.parameterTypes[i])
  {
    forall i | 0 <= i < |m.parameterTypes|
      ensures MethodThunk(klass, m).parameterTypes[(if m.isStatic then 0 else 1) + i] == BoundaryType(m.parameterTypes[i])
    {
      MethodThunkParameterAt(klass, m, i);
      BoundaryParamAt(m.parameterTypes, i);
    }
  }

  /** Declared parameter i sits right after the receiver. */
  lemma MethodThunkParameterAt(klass: TypeDesc, m: MethodDesc, i: nat)
    requires i < |m.parameterTypes|
    ensures MethodThunk(klass, m).parameterTypes[(if m.isStatic then 0 else 1) + i] == BoundaryParams(m.parameterTypes)[i]
  {
    MethodThunkParameters(klass, m);
    ConcatAt(MethodThunk(klass, m).parameterTypes, ReceiverParams(m.isStatic), BoundaryParams(m.parameterTypes),
             i, BoundaryParams(m.parameterTypes)[i]);
  }

  /** A declared parameter's boundary type, by index. */
  lemma BoundaryParamAt(ps: seq<TypeDesc>, i: nat)
    requires i < |ps|
    ensures BoundaryParams(ps)[i] == BoundaryType(ps[i])
  {
  }

  /** An element of the second part of a concatenation, by index. */
  lemma ConcatAt<T>(all: seq<T>, r: seq<T>, b: seq<T>, i: nat, x: T)
    requires all == r + b && i < |b| && b[i] == x
    ensures all[|r| + i] == x
  {
  }

  lemma MethodThunkParameters(klass: TypeDesc, m: MethodDesc)
    ensures MethodThunk(klass, m).parameterTypes == ReceiverParams(m.isStatic) + BoundaryParams(m.parameterTypes)
  {
  }

  /** Every type in a method thunk's signature crosses the boundary
      directly. */
  lemma MethodThunkCallable(klass: TypeDesc, m: MethodDesc)
    ensures CallableFromC(MethodThunk(klass, m))
  {
    MethodThunkParameters(klass, m);
    BoundaryParamsFacts(ReceiverParams(m.isStatic), m.parameterTypes);
  }

  /** A method thunk invokes its method once, with callvirt exactly when it
      is an instance method of a reference type and with call otherwise. */
  lemma MethodThunkDispatch(klass: TypeDesc, m: MethodDesc)
    ensures var t := MethodThunk(klass, m);
      var k := |MarshalCode(klass, m.isStatic, MarshalPlan(m.parameterTypes), 0)|;
      k < |t.code| && t.code[k].callee == MethodCallee(m)
      && (t.code[k].Callvirt? <==> !m.isStatic && !klass.isValueType)
      && (t.code[k].Call? <==> m.isStatic || klass.isValueType)
      && (forall j :: 0 <= j < |t.code| && IsMemberAccess(t.code[j]) ==> j == k)
  {
    var t := MethodThunk(klass, m);
    var op := Dispatch(m.isStatic, klass, MethodCallee(m));
    var plan := MarshalPlan(m.parameterTypes);
    assert t.code == ThunkCode(klass, m.isStatic, plan, op, m.returnType);
    ThunkCodeLayout(klass, m.isStatic, plan, op, m.returnType);
  }

  /** A constructor thunk has no receiver and returns the boundary type of
      the class. */
  lemma ConstructorThunkSignature(klass: TypeDesc, c: ConstructorDesc)
    ensures |ConstructorThunk(klass, c).parameterTypes| == |c.parameterTypes|
    ensures forall i :: 0 <= i < |c.parameterTypes| ==>
      ConstructorThunk(klass, c).parameterTypes[i] == BoundaryType(c.parameterTypes[i])
    ensures ConstructorThunk(klass, c).returnType == BoundaryType(klass)
  {
    var t := ConstructorThunk(klass, c);
    ConstructorThunkHeader(klass, c);
    BoundaryOnly(t.parameterTypes, c.parameterTypes);
  }

  lemma ConstructorThunkHeader(klass: TypeDesc, c: ConstructorDesc)
    ensures ConstructorThunk(klass, c).parameterTypes == BoundaryParams(c.parameterTypes)
    ensures ConstructorThunk(klass, c).returnType == BoundaryType(klass)
  {
  }

  /** The boundary types of the declared parameters, and nothing else. */
  lemma BoundaryOnly(all: seq<TypeDesc>, ps: seq<TypeDesc>)
    requires all == BoundaryParams(ps)
    ensures |all| == |ps|
    ensures forall i :: 0 <= i < |ps| ==> all[i] == BoundaryType(ps[i])
  {
  }

  /** Every type in a constructor thunk's signature crosses the boundary
      directly. */
  lemma ConstructorThunkCallable(klass: TypeDesc, c: ConstructorDesc)
    ensures CallableFromC(ConstructorThunk(klass, c))
  {
    ConstructorThunkHeader(klass, c);
    BoundaryParamsFacts([], c.parameterTypes);
    assert [] + BoundaryParams(c.parameterTypes) == BoundaryParams(c.parameterTypes);
  }

  /** A constructor thunk allocates the object with newobj right after the
      marshalling code, and allocates a handle exactly when the class is
      opaque. */
  lemma ConstructorThunkCode(klass: TypeDesc, c: ConstructorDesc)
    ensures var t := ConstructorThunk(klass, c);
      var k := |MarshalCode(klass, true, MarshalPlan(c.parameterTypes), 0)|;
      k < |t.code| && t.code[k] == Newobj(c)
      && (HandleAlloc in t.code <==> !IsMarshallable(klass))
  {
    var t := ConstructorThunk(klass, c);
    var plan := MarshalPlan(c.parameterTypes);
    assert t.code == ThunkCode(klass, true, plan, Newobj(c), klass);
    ThunkCodeLayout(klass, true, plan, Newobj(c), klass);
    ThunkCodeHandles(klass, true, plan, Newobj(c), klass);
  }

  /** A field getter takes only the receiver of an instance field, returns
      the field's boundary type and reads the field with ldfld, or ldsfld
      when it is static. */
  lemma FieldGetterThunkFacts(klass: TypeDesc, f: FieldDesc)
    ensures var t := FieldGetterThunk(klass, f);
      var k := |MarshalCode(klass, f.isStatic, [], 0)|;
      t.parameterTypes == (if f.isStatic then [] else [IntPtr])
      && t.returnType == BoundaryType(f.fieldType)
      && CallableFromC(t)
      && k < |t.code| && t.code[k] == (if f.isStatic then Ldsfld(f) else Ldfld(f))
  {
    ThunkCodeLayout(klass, f.isStatic, [], if f.isStatic then Ldsfld(f) else Ldfld(f), f.fieldType);
  }

  /** A field setter takes the receiver of an instance field and the new
      value at the field's boundary type, returns nothing, and writes the
      field with stfld, or stsfld when it is static. */
  lemma FieldSetterThunkFacts(klass: TypeDesc, f: FieldDesc)
    ensures var t := FieldSetterThunk(klass, f);
      var k := |MarshalCode(klass, f.isStatic, MarshalPlan([f.fieldType]), 0)|;
      t.parameterTypes == (if f.isStatic then [] else [IntPtr]) + [BoundaryType(f.fieldType)]
      && t.returnType == Void
      && CallableFromC(t)
      && k < |t.code| && t.code[k] == (if f.isStatic then Stsfld(f) else Stfld(f))
      && HandleAlloc !in t.code
  {
    var op := if f.isStatic then Stsfld(f) else Stfld(f);
    var plan := MarshalPlan([f.fieldType]);
    var t := FieldSetterThunk(klass, f);
    assert BoundaryParams([f.fieldType]) == [BoundaryType(f.fieldType)];
    assert t.code == ThunkCode(klass, f.isStatic, plan, op, Void);
    ThunkCodeLayout(klass, f.isStatic, plan, op, Void);
    ThunkCodeHandles(klass, f.isStatic, plan, op, Void);
  }

  /** A property getter thunk exists exactly when the property has a public
      get accessor; it then takes the receiver when that accessor is an
      instance one, returns the property's boundary type, and calls the
      accessor as a method of the class would be called. */
  lemma PropertyGetterThunkFacts(klass: TypeDesc, p: PropertyDesc)
    ensures PropertyGetterThunk(klass, p).Some? <==> p.getter.Some? && p.getter.value.isPublic
    ensures PropertyGetterThunk(klass, p).Some? ==>
      var t := PropertyGetterThunk(klass, p).value;
      var isStatic := p.getter.value.isStatic;
      var k := |MarshalCode(klass, isStatic, [], 0)|;
      t.parameterTypes == (if isStatic then [] else [IntPtr])
      && t.returnType == BoundaryType(p.propertyType)
      && CallableFromC(t)
      && k < |t.code| && t.code[k] == Dispatch(isStatic, klass, GetterCallee(p))
  {
    if PropertyGetterThunk(klass, p).Some? {
      var isStatic := p.getter.value.isStatic;
      ThunkCodeLayout(klass, isStatic, [], Dispatch(isStatic, klass, GetterCallee(p)), p.propertyType);
    }
  }

  /** A property setter thunk exists exactly when the property has a public
      set accessor; it then takes the receiver when that accessor is an
      instance one and the value at the property's boundary type, and
      returns nothing. */
  lemma PropertySetterThunkFacts(klass: TypeDesc, p: PropertyDesc)
    ensures PropertySetterThunk(klass, p).Some? <==> p.setter.Some? && p.setter.value.isPublic
    ensures PropertySetterThunk(klass, p).Some? ==>
      var t := PropertySetterThunk(klass, p).value;
      var isStatic := p.setter.value.isStatic;
      var k := |MarshalCode(klass, isStatic, MarshalPlan([p.propertyType]), 0)|;
      t.parameterTypes == (if isStatic then [] else [IntPtr]) + [BoundaryType(p.propertyType)]
      && t.returnType == Void
      && CallableFromC(t)
      && k < |t.code| && t.code[k] == Dispatch(isStatic, klass, SetterCallee(p))
      && HandleAlloc !in t.code
  {
    if PropertySetterThunk(klass, p).Some? {
      var isStatic := p.setter.value.isStatic;
      var op := Dispatch(isStatic, klass, SetterCallee(p));
      var plan := MarshalPlan([p.propertyType]);
      var t := PropertySetterThunk(klass, p).value;
      assert BoundaryParams([p.propertyType]) == [BoundaryType(p.propertyType)];
      assert t.code == ThunkCode(klass, isStatic, plan, op, Void);
      ThunkCodeLayout(klass, isStatic, plan, op, Void);
      ThunkCodeHandles(klass, isStatic, plan, op, Void);
    }
  }

  // ---------------------------------------------------------------------
  // Running a thunk

  /** When every wrapped argument holds a live handle, a thunk reaches its
      member access in the state MarshalMethodArgs' code leaves behind: the
      receiver and the arguments unwrapped on the stack, the handle table
      untouched. */
  lemma ThunkReachesMember(klass: TypeDesc, isStatic: bool, plan: seq<Slot>, op: Instr, result: TypeDesc, m: Machine)
    requires IsMemberAccess(op)
    requires MarshalReady(klass, isStatic, plan, m)
    ensures var code := ThunkCode(klass, isStatic, plan, op, result);
      var k := |MarshalCode(klass, isStatic, plan, 0)|;
      k < |code| && code[k] == op
      && Exec(code[..k], m) == Some(MarshalResult(klass, isStatic, plan, 0, m))
      && Exec(code[..k], m).value.handles == m.handles
  {
    ThunkCodeLayout(klass, isStatic, plan, op, result);
    MarshalRuns(klass, isStatic, plan, 0, m);
  }

  /** A receiver or wrapped argument whose handle is no longer live makes
      the thunk fail before it reaches the member. */
  lemma ThunkFaultsBeforeMember(klass: TypeDesc, isStatic: bool, plan: seq<Slot>, op: Instr, result: TypeDesc,
                                m: Machine, argc: nat)
    requires IsMemberAccess(op)
    requires argc < |m.args| && m.args[argc].IntPtrVal? && m.args[argc].bits !in m.handles
    requires argc < |Slots(klass, isStatic, plan)| && Slots(klass, isStatic, plan)[argc].wrapped
    ensures var code := ThunkCode(klass, isStatic, plan, op, result);
      var k := |MarshalCode(klass, isStatic, plan, 0)|;
      k < |code| && code[k] == op && Exec(code[..k], m) == None
  {
    ThunkCodeLayout(klass, isStatic, plan, op, result);
    MarshalFailsOnDeadHandle(klass, isStatic, plan, 0, m, argc);
  }

  /** After the member access has left `v` on the stack, the rest of the
      thunk returns a marshallable result as it is, and wraps an opaque one
      in a handle under a key that was not live. */
  lemma ThunkReturns(result: TypeDesc, m: Machine, s: seq<Value>, v: Value)
    requires Valid(m)
    requires m.stack == s + [v]
    ensures IsMarshallable(result) ==> Exec(ReturnCode(result) + [Ret], m) == Some(m)
    ensures !IsMarshallable(result) ==>
      var kept := if result.isValueType then Boxed(v) else v;
      m.nextKey !in m.handles
      && Exec(ReturnCode(result) + [Ret], m)
         == Some(m.(stack := s + [IntPtrVal(m.nextKey)], handles := m.handles[m.nextKey := kept],
                    nextKey := m.nextKey + 1))
  {
    ExecAppend(ReturnCode(result), [Ret], m);
    if !IsMarshallable(result) {
      WrapClassEffect(result, m, s, v);
      WrapClassFresh(result, m, s, v);
    }
  }

  /** gc_free frees the handle its argument names when that handle is
      live, and fails otherwise. */
  lemma GCFreeEffect(m: Machine, k: int)
    requires |m.args| > 0 && m.args[0] == IntPtrVal(k)
    ensures k in m.handles ==>
      Exec(GCFreeThunk().code, m) == Some(m.(locals := m.locals[0 := HandleVal(k)], handles := m.handles - {k}))
    ensures k !in m.handles ==> Exec(GCFreeThunk().code, m) == None
  {
    var m2 := m.(stack := m.stack + [LocalAddr(0)], locals := m.locals[0 := HandleVal(k)]);
    GCFreeReachesFree(m, k);
    ExecCons(HandleFree, [Ret], m2);
    if k in m.handles {
      var m3 := m.(locals := m.locals[0 := HandleVal(k)], handles := m.handles - {k});
      assert m2.stack[..|m2.stack| - 1] == m.stack;
      assert Step(HandleFree, m2) == Some(m3);
      ExecCons(Ret, [], m3);
    }
  }

  /** A C caller that passes the null handle (IntPtr.Zero) to gc_free makes
      it fault: key 0 is never live. */
  lemma GCFreeNullFaults(m: Machine)
    requires Valid(m)
    requires |m.args| > 0 && m.args[0] == IntPtrVal(0)
    ensures Exec(GCFreeThunk().code, m) == None
  {
    GCFreeEffect(m, 0);
  }

  /** gc_free loads its argument's handle into local 0 and reaches Free with
      the address of that local on the stack. */
  lemma GCFreeReachesFree(m: Machine, k: int)
    requires |m.args| > 0 && m.args[0] == IntPtrVal(k)
    ensures Exec(GCFreeThunk().code, m)
      == Exec([HandleFree, Ret], m.(stack := m.stack + [LocalAddr(0)], locals := m.locals[0 := HandleVal(k)]))
  {
    var m1 := m.(stack := m.stack + [IntPtrVal(k)]);
    assert Step(Ldarg(0), m) == Some(m1);
    GetGCHandleEffect(0, m1, m.stack, k);
    var code := GCFreeThunk().code;
    assert code == [Ldarg(0)] + (GetGCHandleCode(0) + [HandleFree, Ret]);
    ExecCons(Ldarg(0), GetGCHandleCode(0) + [HandleFree, Ret], m);
    ExecAppend(GetGCHandleCode(0), [HandleFree, Ret], m1);
  }

  /** Once gc_free has freed a handle, a thunk that receives it as its
      receiver fails before it reaches the member. */
  lemma ReceiverAfterFree(m: Machine, k: int, klass: TypeDesc, plan: seq<Slot>, op: Instr, result: TypeDesc, call: Machine)
    requires |m.args| > 0 && m.args[0] == IntPtrVal(k) && k in m.handles
    requires IsMemberAccess(op)
    requires |call.args| > 0 && call.args[0] == IntPtrVal(k)
    requires Exec(GCFreeThunk().code, m).Some? && call.handles == Exec(GCFreeThunk().code, m).value.handles
    ensures var code := ThunkCode(klass, false, plan, op, result);
      var at := |MarshalCode(klass, false, plan, 0)|;
      at < |code| && code[at] == op && Exec(code[..at], call) == None
  {
    GCFreeEffect(m, k);
    SlotAt(klass, false, plan, 0, -1);
    ThunkFaultsBeforeMember(klass, false, plan, op, result, call, 0);
  }
}
