/** The marshalling helpers the thunks are built from (TCC/ILHelper.cs): each
    appends a fixed instruction pattern to an ILGenerator. The functions give
    the pattern each helper appends; the lemmas say what that pattern does
    to the handle table when it runs. */
module ILHelper {
  import opened Prelude
  import opened ClrTypes
  import opened IL

  /** One entry of `marshalTypes`: the declared type of an argument and
      whether it arrives wrapped in a GCHandle. */
  datatype Slot = Slot(ty: TypeDesc, wrapped: bool)

  function GetGCHandleCode(local: nat): seq<Instr>
  {
    [HandleFromIntPtr, Stloc(local), Ldloca(local)]
  }

  function GetClassLocals(klass: TypeDesc): seq<TypeDesc>
  {
    [GCHandle] + (if klass.isValueType then [klass] else [])
  }

  /** GetClass with its first local at index `base`. */
  function GetClassCode(klass: TypeDesc, base: nat): seq<Instr>
  {
    if klass.isValueType then
      [HandleFromIntPtr, Stloc(base), Ldloca(base), HandleTarget, UnboxAny(klass), Stloc(base + 1), Ldloca(base + 1)]
    else
      [HandleFromIntPtr, Stloc(base), Ldloca(base), HandleTarget, UnboxAny(klass)]
  }

  /** GetClass is GetGCHandle followed by the resolution. */
  lemma GetClassSplit(klass: TypeDesc, base: nat)
    ensures GetClassCode(klass, base) == GetGCHandleCode(base) + ResolveCode(klass, base)
  {
  }

  /** The part of GetClass after GetGCHandle: fetch the target, unbox it,
      and for a value type spill it into local `base + 1`. */
  function ResolveCode(klass: TypeDesc, base: nat): seq<Instr>
  {
    [HandleTarget, UnboxAny(klass)] + (if klass.isValueType then [Stloc(base + 1), Ldloca(base + 1)] else [])
  }

  function WrapClassCode(klass: TypeDesc): seq<Instr>
  {
    (if klass.isValueType then [Box(klass)] else []) + [HandleAlloc, HandleToIntPtr]
  }

  /** The argument slots of a call: the receiver, when there is one, always
      arrives as a handle; then the declared parameters. */
  function Slots(klass: TypeDesc, isStatic: bool, marshalTypes: seq<Slot>): seq<Slot>
  {
    (if isStatic then [] else [Slot(klass, true)]) + marshalTypes
  }

  function SlotLocals(s: Slot): seq<TypeDesc>
  {
    if s.wrapped then GetClassLocals(s.ty) else []
  }

  /** How many locals loading a slot declares. */
  function SlotLocalCount(s: Slot): (r: nat)
    ensures r == |SlotLocals(s)|
  {
    if !s.wrapped then 0 else if s.ty.isValueType then 2 else 1
  }

  /** The code that loads slot `s` as argument `argc`, its locals from index
      `base`. */
  function SlotCode(s: Slot, argc: nat, base: nat): seq<Instr>
  {
    [Ldarg(argc)] + (if s.wrapped then GetClassCode(s.ty, base) else [])
  }

  /** How many locals the first n slots declare. */
  function LocalsUsed(ss: seq<Slot>, n: nat): nat
    requires n <= |ss|
  {
    if n == 0 then 0 else LocalsUsed(ss, n - 1) + SlotLocalCount(ss[n - 1])
  }

  /** The code that loads the first n slots of `ss` as arguments 0, 1, ...,
      emitted into a generator that had `base0` locals. */
  function ArgsCode(ss: seq<Slot>, n: nat, base0: nat): seq<Instr>
    requires n <= |ss|
  {
    if n == 0 then []
    else ArgsCode(ss, n - 1, base0) + SlotCode(ss[n - 1], n - 1, base0 + LocalsUsed(ss, n - 1))
  }

  /** The locals that code declares, in order. */
  function ArgsLocals(ss: seq<Slot>, n: nat): seq<TypeDesc>
    requires n <= |ss|
  {
    if n == 0 then [] else ArgsLocals(ss, n - 1) + SlotLocals(ss[n - 1])
  }

  /** What MarshalMethodArgs emits into a generator that had `base0` locals. */
  function MarshalCode(klass: TypeDesc, isStatic: bool, marshalTypes: seq<Slot>, base0: nat): seq<Instr>
  {
    var ss := Slots(klass, isStatic, marshalTypes);
    ArgsCode(ss, |ss|, base0)
  }

  /** The locals MarshalMethodArgs declares. */
  function MarshalLocals(klass: TypeDesc, isStatic: bool, marshalTypes: seq<Slot>): seq<TypeDesc>
  {
    var ss := Slots(klass, isStatic, marshalTypes);
    ArgsLocals(ss, |ss|)
  }

  /** ILHelper.GetGCHandle. */
  method GetGCHandle(il: ILGenerator)
    modifies il
    ensures il.code == old(il.code) + GetGCHandleCode(|old(il.locals)|)
    ensures il.locals == old(il.locals) + [GCHandle]
  {
    var lb := il.DeclareLocal(GCHandle);
    il.Emit(HandleFromIntPtr);
    il.Emit(Stloc(lb));
    il.Emit(Ldloca(lb));
  }

  /** ILHelper.GetClass. */
  method GetClass(il: ILGenerator, klass: TypeDesc)
    modifies il
    ensures il.code == old(il.code) + GetClassCode(klass, |old(il.locals)|)
    ensures il.locals == old(il.locals) + GetClassLocals(klass)
  {
    GetGCHandle(il);
    il.Emit(HandleTarget);
    il.Emit(UnboxAny(klass));
    if klass.isValueType {
      var lb := il.DeclareLocal(klass);
      il.Emit(Stloc(lb));
      il.Emit(Ldloca(lb));
    }
  }

  /** ILHelper.WrapClass. */
  method WrapClass(il: ILGenerator, klass: TypeDesc)
    modifies il
    ensures il.code == old(il.code) + WrapClassCode(klass)
    ensures il.locals == old(il.locals)
  {
    if klass.isValueType {
      il.Emit(Box(klass));
    }
    il.Emit(HandleAlloc);
    il.Emit(HandleToIntPtr);
  }

  lemma AppendAssoc<T>(a: seq<T>, b: seq<T>, c: seq<T>)
    ensures a + b + c == a + (b + c)
  {
  }

  /** One iteration of the loop in MarshalMethodArgs: load argument `argc`
      and, when the slot is wrapped, resolve its handle. */
  method MarshalSlot(il: ILGenerator, s: Slot, argc: nat)
    modifies il
    ensures il.code == old(il.code) + SlotCode(s, argc, |old(il.locals)|)
    ensures il.locals == old(il.locals) + SlotLocals(s)
  {
    il.Emit(Ldarg(argc));
    if s.wrapped {
      GetClass(il, s.ty);
    }
  }

  /** ILHelper.MarshalMethodArgs. */
  method MarshalMethodArgs(il: ILGenerator, klass: TypeDesc, isStatic: bool, marshalTypes: seq<Slot>)
    modifies il
    ensures il.code == old(il.code) + MarshalCode(klass, isStatic, marshalTypes, |old(il.locals)|)
    ensures il.locals == old(il.locals) + MarshalLocals(klass, isStatic, marshalTypes)
  {
    ghost var code0, locals0 := il.code, il.locals;
    ghost var slots := Slots(klass, isStatic, marshalTypes);
    var argc := 0;
    if !isStatic {
      SlotAt(klass, isStatic, marshalTypes, 0, -1);
      MarshalNext(il, slots, Slot(klass, true), 0, code0, locals0);
      argc := argc + 1;
    }
    for i := 0 to |marshalTypes|
      invariant argc == i + (if isStatic then 0 else 1)
      invariant il.code == code0 + ArgsCode(slots, argc, |locals0|)
      invariant il.locals == locals0 + ArgsLocals(slots, argc)
    {
      SlotAt(klass, isStatic, marshalTypes, argc, i);
      MarshalNext(il, slots, marshalTypes[i], argc, code0, locals0);
      argc := argc + 1;
    }
    SlotAt(klass, isStatic, marshalTypes, argc, -1);
  }

  /** Loads slot `argc` into a generator that holds the code and locals of
      the slots before it. */
  method MarshalNext(il: ILGenerator, ghost slots: seq<Slot>, s: Slot, argc: nat, ghost code0: seq<Instr>, ghost locals0: seq<TypeDesc>)
    requires argc < |slots| && slots[argc] == s
    requires il.code == code0 + ArgsCode(slots, argc, |locals0|)
    requires il.locals == locals0 + ArgsLocals(slots, argc)
    modifies il
    ensures il.code == code0 + ArgsCode(slots, argc + 1, |locals0|)
    ensures il.locals == locals0 + ArgsLocals(slots, argc + 1)
  {
    ghost var code, locals := il.code, il.locals;
    MarshalSlot(il, s, argc);
    ArgsGrow(slots, argc, s, code0, locals0, code, locals);
  }

  /** The slots a call loads: argument 0 is the receiver's, when there is
      one; parameter i is argument i, or i + 1 after a receiver. */
  lemma SlotAt(klass: TypeDesc, isStatic: bool, marshalTypes: seq<Slot>, argc: nat, i: int)
    requires -1 <= i < |marshalTypes|
    requires 0 <= i ==> argc == i + (if isStatic then 0 else 1)
    ensures |Slots(klass, isStatic, marshalTypes)| == |marshalTypes| + (if isStatic then 0 else 1)
    ensures 0 <= i ==> Slots(klass, isStatic, marshalTypes)[argc] == marshalTypes[i]
    ensures !isStatic ==> Slots(klass, isStatic, marshalTypes)[0] == Slot(klass, true)
  {
  }

  /** Loading one more slot, `s`, into a generator that holds the code and
      locals of the first n slots leaves it holding those of the first
      n + 1. */
  lemma ArgsGrow(ss: seq<Slot>, n: nat, s: Slot, code0: seq<Instr>, locals0: seq<TypeDesc>, code: seq<Instr>, locals: seq<TypeDesc>)
    requires n < |ss| && ss[n] == s
    requires code == code0 + ArgsCode(ss, n, |locals0|) && locals == locals0 + ArgsLocals(ss, n)
    ensures code + SlotCode(s, n, |locals|) == code0 + ArgsCode(ss, n + 1, |locals0|)
    ensures locals + SlotLocals(s) == locals0 + ArgsLocals(ss, n + 1)
  {
    ArgsLocalsCount(ss, n);
    assert |locals| == |locals0| + LocalsUsed(ss, n);
    ArgsCodeGrow(ss, n + 1, |locals0|, |locals|);
    AppendAssoc(code0, ArgsCode(ss, n, |locals0|), SlotCode(s, n, |locals|));
    AppendAssoc(locals0, ArgsLocals(ss, n), SlotLocals(s));
  }

  /** The code for n slots extends that for n - 1; the last slot's locals
      start after the `base0` locals and those of the slots before it. */
  lemma ArgsCodeGrow(ss: seq<Slot>, n: nat, base0: nat, b: nat)
    requires 0 < n <= |ss| && b == base0 + LocalsUsed(ss, n - 1)
    ensures ArgsCode(ss, n, base0) == ArgsCode(ss, n - 1, base0) + SlotCode(ss[n - 1], n - 1, b)
  {
  }

  // ---------------------------------------------------------------------
  // What the emitted code is made of

  /** The locals of the argument code number LocalsUsed. */
  lemma {:induction false} ArgsLocalsCount(ss: seq<Slot>, n: nat)
    requires n <= |ss|
    ensures |ArgsLocals(ss, n)| == LocalsUsed(ss, n)
  {
    if n > 0 {
      ArgsLocalsCount(ss, n - 1);
    }
  }

  /** A handle is resolved in the argument code exactly when some slot is
      wrapped. */
  lemma {:induction false} ArgsUnwrapIffWrapped(ss: seq<Slot>, n: nat, base0: nat)
    requires n <= |ss|
    ensures HandleTarget in ArgsCode(ss, n, base0) <==> exists i :: 0 <= i < n && ss[i].wrapped
  {
    if n > 0 {
      ArgsUnwrapIffWrapped(ss, n - 1, base0);
      SlotContents(ss[n - 1], n - 1, base0 + LocalsUsed(ss, n - 1));
    }
  }

  /** Loading a slot resolves a handle exactly when the slot is wrapped,
      and never allocates or frees one. */
  lemma SlotContents(s: Slot, argc: nat, base: nat)
    ensures HandleTarget in SlotCode(s, argc, base) <==> s.wrapped
    ensures HandleAlloc !in SlotCode(s, argc, base) && HandleFree !in SlotCode(s, argc, base)
  {
    if s.wrapped {
      assert SlotCode(s, argc, base)[4] == HandleTarget;
    }
  }

  // ---------------------------------------------------------------------
  // Meaning against the handle table

  /** GetGCHandle turns the IntPtr on top of the stack into the address of a
      fresh GCHandle local holding the same key. */
  lemma GetGCHandleEffect(local: nat, m: Machine, s: seq<Value>, k: int)
    requires m.stack == s + [IntPtrVal(k)]
    ensures Exec(GetGCHandleCode(local), m)
      == Some(m.(stack := s + [LocalAddr(local)], locals := m.locals[local := HandleVal(k)]))
  {
    var m1 := m.(stack := s + [HandleVal(k)]);
    var m2 := m.(stack := s, locals := m.locals[local := HandleVal(k)]);
    StepFromIntPtr(m, s, k);
    StepStloc(m1, s, HandleVal(k), local);
    StepLdloca(m2, local);
    assert GetGCHandleCode(local) == [HandleFromIntPtr] + ([Stloc(local)] + ([Ldloca(local)] + []));
    ExecCons(HandleFromIntPtr, [Stloc(local)] + ([Ldloca(local)] + []), m);
    ExecCons(Stloc(local), [Ldloca(local)] + [], m1);
    ExecCons(Ldloca(local), [], m2);
  }

  /** Resolving a local whose handle is not live fails. */
  lemma ResolveDead(klass: TypeDesc, base: nat, m: Machine, s: seq<Value>)
    requires m.stack == s + [LocalAddr(base)]
    requires LiveHandleAt(m, LocalAddr(base)).None?
    ensures Exec(ResolveCode(klass, base), m) == None
  {
    var c := ResolveCode(klass, base);
    StepTargetDead(m, s, base);
    assert c == [HandleTarget] + c[1..];
    ExecCons(HandleTarget, c[1..], m);
  }

  /** Resolving a live handle to a reference type leaves the object itself. */
  lemma ResolveReference(klass: TypeDesc, base: nat, m: Machine, s: seq<Value>, k: int)
    requires !klass.isValueType
    requires m.stack == s + [LocalAddr(base)]
    requires base in m.locals && m.locals[base] == HandleVal(k) && k in m.handles
    ensures Exec(ResolveCode(klass, base), m) == Some(m.(stack := s + [m.handles[k]]))
  {
    var m1 := m.(stack := s + [m.handles[k]]);
    StepTarget(m, s, base, k);
    StepUnboxReference(m1, klass);
    assert ResolveCode(klass, base) == [HandleTarget] + ([UnboxAny(klass)] + []);
    ExecCons(HandleTarget, [UnboxAny(klass)] + [], m);
    ExecCons(UnboxAny(klass), [], m1);
  }

  /** Resolving a live handle to a boxed value type unboxes it into local
      `base + 1` and leaves that local's address. */
  lemma ResolveValue(klass: TypeDesc, base: nat, m: Machine, s: seq<Value>, k: int)
    requires klass.isValueType
    requires m.stack == s + [LocalAddr(base)]
    requires base in m.locals && m.locals[base] == HandleVal(k) && k in m.handles && m.handles[k].Boxed?
    ensures Exec(ResolveCode(klass, base), m)
      == Some(m.(stack := s + [LocalAddr(base + 1)], locals := m.locals[base + 1 := m.handles[k].inner]))
  {
    var x := m.handles[k].inner;
    var m1 := m.(stack := s + [Boxed(x)]);
    var m2 := m.(stack := s + [x]);
    var m3 := m.(stack := s, locals := m.locals[base + 1 := x]);
    StepTarget(m, s, base, k);
    StepUnboxValue(m1, s, klass, x);
    StepStloc(m2, s, x, base + 1);
    StepLdloca(m3, base + 1);
    assert ResolveCode(klass, base)
      == [HandleTarget] + ([UnboxAny(klass)] + ([Stloc(base + 1)] + ([Ldloca(base + 1)] + [])));
    ExecCons(HandleTarget, [UnboxAny(klass)] + ([Stloc(base + 1)] + ([Ldloca(base + 1)] + [])), m);
    ExecCons(UnboxAny(klass), [Stloc(base + 1)] + ([Ldloca(base + 1)] + []), m1);
    ExecCons(Stloc(base + 1), [Ldloca(base + 1)] + [], m2);
    ExecCons(Ldloca(base + 1), [], m3);
  }

  /** GetClass resolves a live handle to the object it keeps; for a value
      type it copies the unboxed value into a fresh local and leaves that
      local's address, never the handle table's own storage. A dead key
      fails. */
  lemma GetClassEffect(klass: TypeDesc, base: nat, m: Machine, s: seq<Value>, k: int)
    requires m.stack == s + [IntPtrVal(k)]
    ensures k !in m.handles ==> Exec(GetClassCode(klass, base), m) == None
    ensures k in m.handles && !klass.isValueType ==>
      Exec(GetClassCode(klass, base), m)
        == Some(m.(stack := s + [m.handles[k]], locals := m.locals[base := HandleVal(k)]))
    ensures k in m.handles && klass.isValueType && m.handles[k].Boxed? ==>
      Exec(GetClassCode(klass, base), m)
        == Some(m.(stack := s + [LocalAddr(base + 1)],
                   locals := m.locals[base := HandleVal(k)][base + 1 := m.handles[k].inner]))
  {
    GetClassSplit(klass, base);
    ExecAppend(GetGCHandleCode(base), ResolveCode(klass, base), m);
    GetGCHandleEffect(base, m, s, k);
    var m1 := m.(stack := s + [LocalAddr(base)], locals := m.locals[base := HandleVal(k)]);
    if k !in m.handles {
      ResolveDead(klass, base, m1, s);
    } else if !klass.isValueType {
      ResolveReference(klass, base, m1, s, k);
    } else if m.handles[k].Boxed? {
      ResolveValue(klass, base, m1, s, k);
    }
  }

  /** Allocating a handle for the value on top of the stack and converting
      it to an IntPtr. */
  lemma AllocEffect(m: Machine, s: seq<Value>, v: Value)
    requires m.stack == s + [v]
    ensures Exec([HandleAlloc, HandleToIntPtr], m)
      == Some(m.(stack := s + [IntPtrVal(m.nextKey)], handles := m.handles[m.nextKey := v],
                 nextKey := m.nextKey + 1))
  {
    var m1 := m.(stack := s + [HandleVal(m.nextKey)], handles := m.handles[m.nextKey := v],
                 nextKey := m.nextKey + 1);
    StepAlloc(m, s, v);
    StepToIntPtr(m1, s, m.nextKey);
    assert [HandleAlloc, HandleToIntPtr] == [HandleAlloc] + ([HandleToIntPtr] + []);
    ExecCons(HandleAlloc, [HandleToIntPtr] + [], m);
    ExecCons(HandleToIntPtr, [], m1);
  }

  /** WrapClass boxes a value type, allocates a handle under a key that was
      not live, and leaves that key as an IntPtr. */
  lemma WrapClassEffect(klass: TypeDesc, m: Machine, s: seq<Value>, v: Value)
    requires m.stack == s + [v]
    ensures var kept := if klass.isValueType then Boxed(v) else v;
      Exec(WrapClassCode(klass), m)
        == Some(m.(stack := s + [IntPtrVal(m.nextKey)],
                   handles := m.handles[m.nextKey := kept],
                   nextKey := m.nextKey + 1))
  {
    if klass.isValueType {
      WrapValueEffect(klass, m, s, v);
    } else {
      assert WrapClassCode(klass) == [HandleAlloc, HandleToIntPtr];
      AllocEffect(m, s, v);
    }
  }

  /** WrapClass on a value type: the box is what the handle keeps. */
  lemma WrapValueEffect(klass: TypeDesc, m: Machine, s: seq<Value>, v: Value)
    requires klass.isValueType && m.stack == s + [v]
    ensures Exec(WrapClassCode(klass), m)
      == Some(m.(stack := s + [IntPtrVal(m.nextKey)],
                 handles := m.handles[m.nextKey := Boxed(v)],
                 nextKey := m.nextKey + 1))
  {
    var m1 := m.(stack := s + [Boxed(v)]);
    StepBox(m, s, klass, v);
    AllocEffect(m1, s, Boxed(v));
    assert WrapClassCode(klass) == [Box(klass)] + [HandleAlloc, HandleToIntPtr];
    ExecCons(Box(klass), [HandleAlloc, HandleToIntPtr], m);
  }

  /** The new key was not live, and the table stays Valid after wrapping. */
  lemma WrapClassFresh(klass: TypeDesc, m: Machine, s: seq<Value>, v: Value)
    requires Valid(m)
    requires m.stack == s + [v]
    ensures m.nextKey !in m.handles
    ensures Exec(WrapClassCode(klass), m).Some? && Valid(Exec(WrapClassCode(klass), m).value)
  {
    WrapClassEffect(klass, m, s, v);
  }

  /** Wrapping a value and then resolving the handle gives back the value:
      the same object for a reference type, an equal copy in a fresh local
      for a value type. The handle stays live. */
  lemma WrapThenResolve(klass: TypeDesc, base: nat, m: Machine, s: seq<Value>, v: Value)
    requires Valid(m)
    requires m.stack == s + [v]
    ensures var r := Exec(WrapClassCode(klass) + GetClassCode(klass, base), m);
      r.Some? && m.nextKey in r.value.handles && |r.value.stack| == |s| + 1
      && r.value.stack[..|s|] == s
      && (!klass.isValueType ==> r.value.stack[|s|] == v)
      && (klass.isValueType ==>
            r.value.stack[|s|] == LocalAddr(base + 1) && base + 1 in r.value.locals
            && r.value.locals[base + 1] == v)
  {
    WrapClassEffect(klass, m, s, v);
    WrapClassFresh(klass, m, s, v);
    ExecAppend(WrapClassCode(klass), GetClassCode(klass, base), m);
    var m1 := Exec(WrapClassCode(klass), m).value;
    GetClassEffect(klass, base, m1, s, m.nextKey);
  }

  /** A slot argument GetClass can resolve: an unwrapped slot takes anything;
      a wrapped one needs a live key, holding a boxed value for a value type. */
  ghost predicate Unwrappable(s: Slot, arg: Value, handles: map<int, Value>)
  {
    !s.wrapped || (arg.IntPtrVal? && arg.bits in handles && (s.ty.isValueType ==> handles[arg.bits].Boxed?))
  }

  /** The value `v` pushed for slot `s` is what the callee should receive:
      the argument itself when unwrapped, the object its handle keeps, or
      (for a value type) the address of a local below `bound` holding a copy
      of the unboxed value. */
  ghost predicate Delivered(s: Slot, arg: Value, m: Machine, v: Value, bound: nat)
  {
    if !s.wrapped then v == arg
    else if !s.ty.isValueType then arg.IntPtrVal? && arg.bits in m.handles && v == m.handles[arg.bits]
    else
      arg.IntPtrVal? && arg.bits in m.handles && v.LocalAddr? && v.local < bound
      && v.local in m.locals && Boxed(m.locals[v.local]) == m.handles[arg.bits]
  }

  /** `m2` still holds every local `m1` holds below `bound`. */
  ghost predicate KeepsLocalsBelow(m1: Machine, m2: Machine, bound: nat)
  {
    forall l :: l in m1.locals && l < bound ==> l in m2.locals && m2.locals[l] == m1.locals[l]
  }

  lemma KeepsLocalsTrans(m1: Machine, m2: Machine, m3: Machine, b1: nat, b2: nat)
    requires KeepsLocalsBelow(m1, m2, b1) && KeepsLocalsBelow(m2, m3, b2) && b1 <= b2
    ensures KeepsLocalsBelow(m1, m3, b1)
  {
  }

  /** What Delivered says of a value survives a step that keeps the handle
      table and every local below the bound. */
  lemma DeliveredStable(s: Slot, arg: Value, m1: Machine, m2: Machine, v: Value, bound1: nat, bound2: nat)
    requires Delivered(s, arg, m1, v, bound1)
    requires m2.handles == m1.handles && bound1 <= bound2
    requires KeepsLocalsBelow(m1, m2, bound1)
    ensures Delivered(s, arg, m2, v, bound2)
  {
  }

  /** The state after loading slot `s` from argument j with its locals from
      index b. */
  ghost function SlotResult(s: Slot, j: nat, b: nat, m: Machine): Machine
    requires j < |m.args| && Unwrappable(s, m.args[j], m.handles)
  {
    var arg := m.args[j];
    if !s.wrapped then m.(stack := m.stack + [arg])
    else
      var locals := m.locals[b := HandleVal(arg.bits)];
      var target := m.handles[arg.bits];
      if !s.ty.isValueType then m.(stack := m.stack + [target], locals := locals)
      else m.(stack := m.stack + [LocalAddr(b + 1)], locals := locals[b + 1 := target.inner])
  }

  lemma SlotEffect(s: Slot, j: nat, b: nat, m: Machine)
    requires j < |m.args| && Unwrappable(s, m.args[j], m.handles)
    ensures Exec(SlotCode(s, j, b), m) == Some(SlotResult(s, j, b, m))
  {
    var tail := if s.wrapped then GetClassCode(s.ty, b) else [];
    var m1 := m.(stack := m.stack + [m.args[j]]);
    ExecCons(Ldarg(j), tail, m);
    assert Step(Ldarg(j), m) == Some(m1);
    if s.wrapped {
      GetClassEffect(s.ty, b, m1, m.stack, m.args[j].bits);
    }
  }

  /** Loading a slot pushes one value, the one Delivered asks for, keeps
      the handle table and arguments, and keeps every local below b. */
  lemma SlotDelivers(s: Slot, j: nat, b: nat, m: Machine)
    requires j < |m.args| && Unwrappable(s, m.args[j], m.handles)
    ensures var r := SlotResult(s, j, b, m);
      r.handles == m.handles && r.args == m.args && r.nextKey == m.nextKey
      && r.stack == m.stack + [r.stack[|m.stack|]]
      && Delivered(s, m.args[j], r, r.stack[|m.stack|], b + SlotLocalCount(s))
      && KeepsLocalsBelow(m, r, b)
  {
  }

  /** The first n slots can be loaded from the arguments of `m`. */
  ghost predicate ArgsReady(ss: seq<Slot>, n: nat, m: Machine)
  {
    n <= |ss| && n <= |m.args|
    && (n == 0 || (ArgsReady(ss, n - 1, m) && Unwrappable(ss[n - 1], m.args[n - 1], m.handles)))
  }

  /** ArgsReady asks exactly that every one of the first n slots can be
      loaded. */
  lemma {:induction false} ArgsReadyAll(ss: seq<Slot>, n: nat, m: Machine)
    requires n <= |ss| && n <= |m.args|
    ensures ArgsReady(ss, n, m) <==> forall i :: 0 <= i < n ==> Unwrappable(ss[i], m.args[i], m.handles)
  {
    if n > 0 {
      ArgsReadyAll(ss, n - 1, m);
    }
  }

  /** The state after loading the first n slots, their locals numbered
      from `base0`. */
  ghost function ArgsResult(ss: seq<Slot>, n: nat, base0: nat, m: Machine): (r: Machine)
    requires ArgsReady(ss, n, m)
    ensures r.handles == m.handles && r.args == m.args && r.nextKey == m.nextKey
    ensures |r.stack| == |m.stack| + n
  {
    if n == 0 then m
    else SlotResult(ss[n - 1], n - 1, base0 + LocalsUsed(ss, n - 1), ArgsResult(ss, n - 1, base0, m))
  }

  /** Running the code for n slots runs that for n - 1, then the last. */
  lemma ArgsExecSplit(ss: seq<Slot>, n: nat, base0: nat, m: Machine)
    requires 0 < n <= |ss|
    ensures Exec(ArgsCode(ss, n, base0), m)
      == match Exec(ArgsCode(ss, n - 1, base0), m)
         case None => None
         case Some(m1) => Exec(SlotCode(ss[n - 1], n - 1, base0 + LocalsUsed(ss, n - 1)), m1)
  {
    ExecAppend(ArgsCode(ss, n - 1, base0), SlotCode(ss[n - 1], n - 1, base0 + LocalsUsed(ss, n - 1)), m);
  }

  /** Run against arguments whose wrapped slots hold live handles, the code
      for the first n slots completes in the state ArgsResult gives. */
  lemma {:induction false} ArgsRun(ss: seq<Slot>, n: nat, base0: nat, m: Machine)
    requires ArgsReady(ss, n, m)
    ensures Exec(ArgsCode(ss, n, base0), m) == Some(ArgsResult(ss, n, base0, m))
  {
    if n > 0 {
      var b := base0 + LocalsUsed(ss, n - 1);
      var r1 := ArgsResult(ss, n - 1, base0, m);
      ArgsRun(ss, n - 1, base0, m);
      SlotEffect(ss[n - 1], n - 1, b, r1);
      ArgsExecSplit(ss, n, base0, m);
    }
  }

  /** Loading slots only pushes onto the stack it found. */
  lemma {:induction false} ArgsKeepStack(ss: seq<Slot>, n: nat, base0: nat, m: Machine)
    requires ArgsReady(ss, n, m)
    ensures ArgsResult(ss, n, base0, m).stack[..|m.stack|] == m.stack
  {
    if n == 0 {
      assert m.stack[..|m.stack|] == m.stack;
    } else {
      var r1 := ArgsResult(ss, n - 1, base0, m);
      ArgsKeepStack(ss, n - 1, base0, m);
      SlotDelivers(ss[n - 1], n - 1, base0 + LocalsUsed(ss, n - 1), r1);
      assert ArgsResult(ss, n, base0, m).stack[..|m.stack|] == r1.stack[..|m.stack|];
    }
  }

  /** Loading slots keeps every local below `base0`. */
  lemma {:induction false} ArgsKeepLocals(ss: seq<Slot>, n: nat, base0: nat, m: Machine)
    requires ArgsReady(ss, n, m)
    ensures KeepsLocalsBelow(m, ArgsResult(ss, n, base0, m), base0)
  {
    if n > 0 {
      var b := base0 + LocalsUsed(ss, n - 1);
      var r1 := ArgsResult(ss, n - 1, base0, m);
      ArgsKeepLocals(ss, n - 1, base0, m);
      SlotDelivers(ss[n - 1], n - 1, b, r1);
      KeepsLocalsTrans(m, r1, ArgsResult(ss, n, base0, m), base0, b);
    }
  }

  /** In that state the stack holds, above what was there, for each slot i
      what the callee's i-th argument should be (see Delivered). */
  lemma {:induction false} ArgsDeliver(ss: seq<Slot>, n: nat, base0: nat, m: Machine)
    requires ArgsReady(ss, n, m)
    ensures AllDelivered(ss, n, m, ArgsResult(ss, n, base0, m), base0 + LocalsUsed(ss, n))
  {
    if n > 0 {
      var b := base0 + LocalsUsed(ss, n - 1);
      var r1 := ArgsResult(ss, n - 1, base0, m);
      ArgsDeliver(ss, n - 1, base0, m);
      SlotDelivers(ss[n - 1], n - 1, b, r1);
      DeliverStep(ss, n, m, r1, ArgsResult(ss, n, base0, m), b, base0 + LocalsUsed(ss, n));
    }
  }

  /** For each of the first n slots, the stack of `r` holds, above the
      stack of `m`, what Delivered asks for. */
  ghost predicate AllDelivered(ss: seq<Slot>, n: nat, m: Machine, r: Machine, bound: nat)
  {
    n <= |ss| && n <= |m.args| && |m.stack| + n <= |r.stack|
    && forall i :: 0 <= i < n ==> Delivered(ss[i], m.args[i], r, r.stack[|m.stack| + i], bound)
  }

  /** The inductive step of ArgsDeliver, on the states alone. */
  lemma DeliverStep(ss: seq<Slot>, n: nat, m: Machine, r1: Machine, r: Machine, b: nat, bound: nat)
    requires 0 < n <= |ss| && n <= |m.args| && b <= bound
    requires |r1.stack| == |m.stack| + n - 1 && |r.stack| > |r1.stack| && r.stack == r1.stack + [r.stack[|r1.stack|]]
    requires r.handles == r1.handles && KeepsLocalsBelow(r1, r, b)
    requires AllDelivered(ss, n - 1, m, r1, b)
    requires Delivered(ss[n - 1], m.args[n - 1], r, r.stack[|r1.stack|], bound)
    ensures AllDelivered(ss, n, m, r, bound)
  {
    forall i | 0 <= i < n
      ensures Delivered(ss[i], m.args[i], r, r.stack[|m.stack| + i], bound)
    {
      if i < n - 1 {
        assert r.stack[|m.stack| + i] == r1.stack[|m.stack| + i];
        DeliveredStable(ss[i], m.args[i], r1, r, r1.stack[|m.stack| + i], b, bound);
      }
    }
  }

  /** Every argument slot of the call can be loaded from the arguments of
      `m`: each wrapped one holds a live key (of a boxed value, for a value
      type). */
  ghost predicate MarshalReady(klass: TypeDesc, isStatic: bool, marshalTypes: seq<Slot>, m: Machine)
  {
    var ss := Slots(klass, isStatic, marshalTypes);
    |ss| <= |m.args| && ArgsReady(ss, |ss|, m)
  }

  /** What the code MarshalMethodArgs emits leaves behind when every
      wrapped argument holds a live handle; `base0` is the number of locals
      declared before it. */
  ghost function MarshalResult(klass: TypeDesc, isStatic: bool, marshalTypes: seq<Slot>,
                               base0: nat, m: Machine): Machine
    requires MarshalReady(klass, isStatic, marshalTypes, m)
  {
    var ss := Slots(klass, isStatic, marshalTypes);
    ArgsResult(ss, |ss|, base0, m)
  }

  /** The marshalling code completes in that state, which keeps the handle
      table, every local declared before it, and the stack it found, with one
      value per slot pushed above. */
  lemma MarshalRuns(klass: TypeDesc, isStatic: bool, marshalTypes: seq<Slot>, base0: nat, m: Machine)
    requires MarshalReady(klass, isStatic, marshalTypes, m)
    ensures Exec(MarshalCode(klass, isStatic, marshalTypes, base0), m)
      == Some(MarshalResult(klass, isStatic, marshalTypes, base0, m))
    ensures var r := MarshalResult(klass, isStatic, marshalTypes, base0, m);
      r.handles == m.handles && r.stack[..|m.stack|] == m.stack
      && |r.stack| == |m.stack| + |marshalTypes| + (if isStatic then 0 else 1)
      && KeepsLocalsBelow(m, r, base0)
  {
    var ss := Slots(klass, isStatic, marshalTypes);
    ArgsRun(ss, |ss|, base0, m);
    ArgsKeepStack(ss, |ss|, base0, m);
    ArgsKeepLocals(ss, |ss|, base0, m);
  }

  /** The receiver of an instance member reaches the callee unwrapped; a
      copied value lives in a local the marshalling code declared. */
  lemma MarshalDeliversReceiver(klass: TypeDesc, isStatic: bool, marshalTypes: seq<Slot>, base0: nat, m: Machine)
    requires !isStatic
    requires MarshalReady(klass, isStatic, marshalTypes, m)
    ensures var r := MarshalResult(klass, isStatic, marshalTypes, base0, m);
      Delivered(Slot(klass, true), m.args[0], r, r.stack[|m.stack|],
                base0 + |MarshalLocals(klass, isStatic, marshalTypes)|)
  {
    var ss := Slots(klass, isStatic, marshalTypes);
    ArgsDeliver(ss, |ss|, base0, m);
    ArgsLocalsCount(ss, |ss|);
    assert ss[0] == Slot(klass, true);
  }

  /** Each declared parameter reaches the callee as Delivered says:
      unwrapped exactly when its flag is set, passed through otherwise. */
  lemma MarshalDeliversParam(klass: TypeDesc, isStatic: bool, marshalTypes: seq<Slot>, base0: nat, m: Machine, i: nat)
    requires MarshalReady(klass, isStatic, marshalTypes, m) && i < |marshalTypes|
    ensures var r := MarshalResult(klass, isStatic, marshalTypes, base0, m);
      var argc := i + (if isStatic then 0 else 1);
      Delivered(marshalTypes[i], m.args[argc], r, r.stack[|m.stack| + argc],
                base0 + |MarshalLocals(klass, isStatic, marshalTypes)|)
  {
    var ss := Slots(klass, isStatic, marshalTypes);
    var argc := i + (if isStatic then 0 else 1);
    var r := ArgsResult(ss, |ss|, base0, m);
    var bound := base0 + LocalsUsed(ss, |ss|);
    ArgsDeliver(ss, |ss|, base0, m);
    ArgsLocalsCount(ss, |ss|);
    SlotAt(klass, isStatic, marshalTypes, argc, i);
    assert AllDelivered(ss, |ss|, m, r, bound);
    assert Delivered(ss[argc], m.args[argc], r, r.stack[|m.stack| + argc], bound);
  }

  lemma {:induction false} ArgsKeepHandles(ss: seq<Slot>, n: nat, base0: nat, m: Machine)
    requires n <= |ss|
    ensures var r := Exec(ArgsCode(ss, n, base0), m);
      r.Some? ==> r.value.handles == m.handles && r.value.args == m.args
  {
    ArgsNoAlloc(ss, n, base0);
    ExecKeepsHandles(ArgsCode(ss, n, base0), m);
  }

  /** The argument code neither allocates nor frees a handle. */
  lemma {:induction false} ArgsNoAlloc(ss: seq<Slot>, n: nat, base0: nat)
    requires n <= |ss|
    ensures HandleAlloc !in ArgsCode(ss, n, base0) && HandleFree !in ArgsCode(ss, n, base0)
  {
    if n > 0 {
      ArgsNoAlloc(ss, n - 1, base0);
      SlotContents(ss[n - 1], n - 1, base0 + LocalsUsed(ss, n - 1));
    }
  }

  /** Loading a wrapped slot whose key is not live fails. */
  lemma SlotFailsOnDeadHandle(s: Slot, j: nat, b: nat, m: Machine)
    requires s.wrapped && j < |m.args| && m.args[j].IntPtrVal? && m.args[j].bits !in m.handles
    ensures Exec(SlotCode(s, j, b), m) == None
  {
    var m1 := m.(stack := m.stack + [m.args[j]]);
    ExecCons(Ldarg(j), GetClassCode(s.ty, b), m);
    assert Step(Ldarg(j), m) == Some(m1);
    GetClassEffect(s.ty, b, m1, m.stack, m.args[j].bits);
  }

  /** A wrapped argument whose key is not live fails the whole argument
      code, whatever the other arguments are. */
  lemma {:induction false} ArgsFailOnDeadHandle(ss: seq<Slot>, n: nat, base0: nat, m: Machine, i: nat)
    requires n <= |ss| && i < n && i < |m.args| && ss[i].wrapped
    requires m.args[i].IntPtrVal? && m.args[i].bits !in m.handles
    ensures Exec(ArgsCode(ss, n, base0), m) == None
  {
    ArgsExecSplit(ss, n, base0, m);
    if i < n - 1 {
      ArgsFailOnDeadHandle(ss, n - 1, base0, m, i);
    } else {
      ArgsKeepHandles(ss, n - 1, base0, m);
      match Exec(ArgsCode(ss, n - 1, base0), m)
      case None =>
      case Some(m1) => SlotFailsOnDeadHandle(ss[i], i, base0 + LocalsUsed(ss, n - 1), m1);
    }
  }

  // ---------------------------------------------------------------------
  // Facts about the whole of MarshalMethodArgs' code

  /** The instructions marshalling code is made of: argument and local
      loads and stores, and the GCHandle and unbox steps of GetClass. */
  predicate IsMarshalling(i: Instr)
  {
    i.Ldarg? || i.Stloc? || i.Ldloca? || i.HandleFromIntPtr? || i.HandleTarget? || i.UnboxAny?
  }

  lemma SlotOnlyMarshalling(s: Slot, argc: nat, base: nat)
    ensures forall i :: i in SlotCode(s, argc, base) ==> IsMarshalling(i)
  {
  }

  /** The argument code invokes no member and touches no field: everything
      in it is marshalling. */
  lemma {:induction false} ArgsOnlyMarshalling(ss: seq<Slot>, n: nat, base0: nat)
    requires n <= |ss|
    ensures forall i :: i in ArgsCode(ss, n, base0) ==> IsMarshalling(i)
  {
    if n > 0 {
      ArgsOnlyMarshalling(ss, n - 1, base0);
      SlotOnlyMarshalling(ss[n - 1], n - 1, base0 + LocalsUsed(ss, n - 1));
    }
  }

  /** MarshalMethodArgs resolves a handle exactly when there is a receiver
      or some parameter arrives wrapped. */
  lemma MarshalUnwrapIff(klass: TypeDesc, isStatic: bool, marshalTypes: seq<Slot>, base0: nat)
    ensures HandleTarget in MarshalCode(klass, isStatic, marshalTypes, base0)
        <==> !isStatic || exists j :: 0 <= j < |marshalTypes| && marshalTypes[j].wrapped
  {
    var ss := Slots(klass, isStatic, marshalTypes);
    var off := if isStatic then 0 else 1;
    ArgsUnwrapIffWrapped(ss, |ss|, base0);
    SlotAt(klass, isStatic, marshalTypes, 0, -1);
    if exists j :: 0 <= j < |marshalTypes| && marshalTypes[j].wrapped {
      var j :| 0 <= j < |marshalTypes| && marshalTypes[j].wrapped;
      SlotAt(klass, isStatic, marshalTypes, j + off, j);
    }
    if isStatic && exists i :: 0 <= i < |ss| && ss[i].wrapped {
      var i :| 0 <= i < |ss| && ss[i].wrapped;
      SlotAt(klass, isStatic, marshalTypes, i, i);
    }
  }

  /** A wrapped argument (the receiver included) whose key is not live makes
      the marshalling code fail. */
  lemma MarshalFailsOnDeadHandle(klass: TypeDesc, isStatic: bool, marshalTypes: seq<Slot>, base0: nat,
                                 m: Machine, argc: nat)
    requires argc < |m.args| && m.args[argc].IntPtrVal? && m.args[argc].bits !in m.handles
    requires argc < |Slots(klass, isStatic, marshalTypes)| && Slots(klass, isStatic, marshalTypes)[argc].wrapped
    ensures Exec(MarshalCode(klass, isStatic, marshalTypes, base0), m) == None
  {
    var ss := Slots(klass, isStatic, marshalTypes);
    ArgsFailOnDeadHandle(ss, |ss|, base0, m, argc);
  }

  /** The argument indices the Ldarg instructions of `code` load, in order. */
  function LoadedArgs(code: seq<Instr>): seq<nat>
  {
    if code == [] then []
    else LoadedArgs(code[..|code| - 1]) + (if code[|code| - 1].Ldarg? then [code[|code| - 1].index] else [])
  }

  lemma {:induction false} LoadedArgsAppend(a: seq<Instr>, b: seq<Instr>)
    ensures LoadedArgs(a + b) == LoadedArgs(a) + LoadedArgs(b)
    decreases |b|
  {
    if b == [] {
      assert a + b == a;
    } else {
      var last := b[|b| - 1];
      assert (a + b)[..|a + b| - 1] == a + b[..|b| - 1];
      assert (a + b)[|a + b| - 1] == last;
      LoadedArgsAppend(a, b[..|b| - 1]);
      AppendAssoc(LoadedArgs(a), LoadedArgs(b[..|b| - 1]), if last.Ldarg? then [last.index] else []);
    }
  }

  /** Code without Ldarg loads no argument. */
  lemma {:induction false} LoadedArgsNone(code: seq<Instr>)
    requires forall i :: i in code ==> !i.Ldarg?
    ensures LoadedArgs(code) == []
  {
    if code != [] {
      assert code[|code| - 1] in code;
      LoadedArgsNone(code[..|code| - 1]);
    }
  }

  /** Loading a slot loads exactly its own argument. */
  lemma SlotLoads(s: Slot, argc: nat, base: nat)
    ensures LoadedArgs(SlotCode(s, argc, base)) == [argc]
  {
    var tail := if s.wrapped then GetClassCode(s.ty, base) else [];
    LoadedArgsAppend([Ldarg(argc)], tail);
    assert [Ldarg(argc)][..0] == [];
    LoadedArgsNone(tail);
  }

  /** 0, 1, ..., n - 1. */
  function Indices(n: nat): (r: seq<nat>)
    ensures |r| == n
  {
    if n == 0 then [] else Indices(n - 1) + [n - 1]
  }

  lemma {:induction false} IndicesAt(n: nat)
    ensures forall i :: 0 <= i < n ==> Indices(n)[i] == i
  {
    if n > 0 {
      IndicesAt(n - 1);
    }
  }

  /** The argument code loads arguments 0, 1, ..., n - 1, each once and in
      that order. */
  lemma {:induction false} ArgsLoadInOrder(ss: seq<Slot>, n: nat, base0: nat)
    requires n <= |ss|
    ensures LoadedArgs(ArgsCode(ss, n, base0)) == Indices(n)
  {
    if n > 0 {
      var b := base0 + LocalsUsed(ss, n - 1);
      ArgsCodeGrow(ss, n, base0, b);
      ArgsLoadInOrder(ss, n - 1, base0);
      SlotLoads(ss[n - 1], n - 1, b);
      LoadsNext(ArgsCode(ss, n - 1, base0), SlotCode(ss[n - 1], n - 1, b), n);
    }
  }

  lemma LoadsNext(before: seq<Instr>, here: seq<Instr>, n: nat)
    requires n > 0 && LoadedArgs(before) == Indices(n - 1) && LoadedArgs(here) == [n - 1]
    ensures LoadedArgs(before + here) == Indices(n)
  {
    LoadedArgsAppend(before, here);
  }

  /** MarshalMethodArgs loads arguments 0, 1, 2, ... in order, once per
      slot: one more than there are marshalTypes when there is a receiver. */
  lemma MarshalLoadsInOrder(klass: TypeDesc, isStatic: bool, marshalTypes: seq<Slot>, base0: nat)
    ensures var loaded := LoadedArgs(MarshalCode(klass, isStatic, marshalTypes, base0));
      |loaded| == |marshalTypes| + (if isStatic then 0 else 1)
      && forall i :: 0 <= i < |loaded| ==> loaded[i] == i
  {
    var ss := Slots(klass, isStatic, marshalTypes);
    ArgsLoadInOrder(ss, |ss|, base0);
    IndicesAt(|ss|);
    SlotAt(klass, isStatic, marshalTypes, 0, -1);
  }
}
