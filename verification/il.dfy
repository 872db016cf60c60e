/** The instruction buffer the thunk generator writes into (ILGenerator), and
    an abstract machine that gives the marshalling instructions a meaning
    against a table of live GCHandles. */
module IL {
  import opened Prelude
  import opened ClrTypes

  /** A member a thunk invokes. */
  datatype Callee =
    | MethodCallee(m: MethodDesc)
    | GetterCallee(p: PropertyDesc)
    | SetterCallee(p: PropertyDesc)

  /** The IL the generator emits. The calls into GCHandle (FromIntPtr, the
      Target getter, Alloc, ToIntPtr, Free) are separate instructions so that
      the machine below can interpret them. */
  datatype Instr =
    | Ldarg(index: nat)
    | Stloc(local: nat)
    | Ldloca(local: nat)
    | HandleFromIntPtr
    | HandleTarget
    | HandleAlloc
    | HandleToIntPtr
    | HandleFree
    | UnboxAny(ty: TypeDesc)
    | Box(ty: TypeDesc)
    | Call(callee: Callee)
    | Callvirt(callee: Callee)
    | Newobj(ctor: ConstructorDesc)
    | Ldfld(field: FieldDesc)
    | Ldsfld(field: FieldDesc)
    | Stfld(field: FieldDesc)
    | Stsfld(field: FieldDesc)
    | Ret

  /** The instruction stream and the declared locals of one dynamic method. */
  class ILGenerator {
    var code: seq<Instr>
    var locals: seq<TypeDesc>

    constructor ()
      ensures code == [] && locals == []
    {
      code := [];
      locals := [];
    }

    method Emit(i: Instr)
      modifies this
      ensures code == old(code) + [i] && locals == old(locals)
    {
      code := code + [i];
    }

    /** Declares a local and returns its index, as LocalBuilder.LocalIndex. */
    method DeclareLocal(t: TypeDesc) returns (index: nat)
      modifies this
      ensures index == |old(locals)|
      ensures locals == old(locals) + [t] && code == old(code)
    {
      index := |locals|;
      locals := locals + [t];
    }
  }

  /** Run-time values as far as the marshalling code handles them. */
  datatype Value =
    | Host(id: nat)               // any host value or reference
    | Boxed(inner: Value)         // a boxed value-type instance
    | IntPtrVal(bits: int)        // an address-sized integer
    | HandleVal(key: int)         // a GCHandle struct naming table entry `key`
    | LocalAddr(local: nat)       // the managed address of a local (ldloca)

  /** The arguments, evaluation stack and locals of a running thunk, and the
      process-wide handle table: live keys and the objects they keep. */
  datatype Machine = Machine(
    args: seq<Value>,
    stack: seq<Value>,
    locals: map<nat, Value>,
    handles: map<int, Value>,
    nextKey: int)

  /** Every live key is positive and lies below the next key Alloc hands
      out: key 0 stands for IntPtr.Zero, which is never a live handle. */
  ghost predicate Valid(m: Machine)
  {
    0 < m.nextKey && forall k :: k in m.handles ==> 0 < k < m.nextKey
  }

  /** The handle a local holds, if it holds one that is live. */
  function LiveHandleAt(m: Machine, v: Value): Option<int>
  {
    if v.LocalAddr? && v.local in m.locals && m.locals[v.local].HandleVal?
       && m.locals[v.local].key in m.handles
    then Some(m.locals[v.local].key) else None
  }

  /** One instruction; None when it faults (a dead handle, a value of the
      wrong shape) or when it invokes a host member, which this machine does
      not interpret. Ret leaves the state as it is: every thunk body ends in
      its only Ret, so a run simply goes to the end of the code. */
  function Step(i: Instr, m: Machine): Option<Machine>
  {
    if i.Ret? then Some(m)
    else if i.Ldarg? then
      if i.index < |m.args| then Some(m.(stack := m.stack + [m.args[i.index]])) else None
    else if i.Ldloca? then
      Some(m.(stack := m.stack + [LocalAddr(i.local)]))
    else if m.stack == [] then None
    else
      var top := m.stack[|m.stack| - 1];
      var rest := m.stack[..|m.stack| - 1];
      match i
      case Stloc(l) => Some(m.(stack := rest, locals := m.locals[l := top]))
      case HandleFromIntPtr =>
        if top.IntPtrVal? then Some(m.(stack := rest + [HandleVal(top.bits)])) else None
      case HandleTarget =>
        (match LiveHandleAt(m, top)
         case Some(k) => Some(m.(stack := rest + [m.handles[k]]))
         case None => None)
      case UnboxAny(t) =>
        // values carry no type: the cast a reference type's unbox.any
        // performs, and the type test of a value type's, always succeed
        if !t.isValueType then Some(m)
        else if top.Boxed? then Some(m.(stack := rest + [top.inner]))
        else None
      case Box(_) => Some(m.(stack := rest + [Boxed(top)]))
      case HandleAlloc =>
        Some(m.(stack := rest + [HandleVal(m.nextKey)],
                handles := m.handles[m.nextKey := top],
                nextKey := m.nextKey + 1))
      case HandleToIntPtr =>
        if top.HandleVal? then Some(m.(stack := rest + [IntPtrVal(top.key)])) else None
      case HandleFree =>
        (match LiveHandleAt(m, top)
         case Some(k) => Some(m.(stack := rest, handles := m.handles - {k}))
         case None => None)
      case _ => None
  }

  /** Runs `code` to its end, or to the first instruction that faults. */
  function Exec(code: seq<Instr>, m: Machine): Option<Machine>
  {
    if code == [] then Some(m)
    else
      match Step(code[0], m)
      case None => None
      case Some(m') => Exec(code[1..], m')
  }

  /** One step of a run. */
  lemma ExecStep(code: seq<Instr>, m: Machine, m1: Machine)
    requires code != [] && Step(code[0], m) == Some(m1)
    ensures Exec(code, m) == Exec(code[1..], m1)
  {
  }

  /** Running one instruction and then the rest. */
  lemma ExecCons(i: Instr, rest: seq<Instr>, m: Machine)
    ensures Exec([i] + rest, m) == match Step(i, m) case None => None case Some(m1) => Exec(rest, m1)
  {
    assert ([i] + rest)[0] == i;
    assert ([i] + rest)[1..] == rest;
  }

  // What each instruction the marshalling code uses does to a well-shaped
  // stack.

  lemma StepLdloca(m: Machine, l: nat)
    ensures Step(Ldloca(l), m) == Some(m.(stack := m.stack + [LocalAddr(l)]))
  {
  }

  lemma StepStloc(m: Machine, s: seq<Value>, v: Value, l: nat)
    requires m.stack == s + [v]
    ensures Step(Stloc(l), m) == Some(m.(stack := s, locals := m.locals[l := v]))
  {
    assert m.stack[..|m.stack| - 1] == s;
  }

  lemma StepFromIntPtr(m: Machine, s: seq<Value>, k: int)
    requires m.stack == s + [IntPtrVal(k)]
    ensures Step(HandleFromIntPtr, m) == Some(m.(stack := s + [HandleVal(k)]))
  {
    assert m.stack[..|m.stack| - 1] == s;
  }

  lemma StepTarget(m: Machine, s: seq<Value>, l: nat, k: int)
    requires m.stack == s + [LocalAddr(l)]
    requires l in m.locals && m.locals[l] == HandleVal(k) && k in m.handles
    ensures Step(HandleTarget, m) == Some(m.(stack := s + [m.handles[k]]))
  {
    assert m.stack[..|m.stack| - 1] == s;
  }

  lemma StepTargetDead(m: Machine, s: seq<Value>, l: nat)
    requires m.stack == s + [LocalAddr(l)]
    requires LiveHandleAt(m, LocalAddr(l)).None?
    ensures Step(HandleTarget, m) == None
  {
  }

  lemma StepUnboxValue(m: Machine, s: seq<Value>, t: TypeDesc, x: Value)
    requires t.isValueType && m.stack == s + [Boxed(x)]
    ensures Step(UnboxAny(t), m) == Some(m.(stack := s + [x]))
  {
    assert m.stack[..|m.stack| - 1] == s;
  }

  lemma StepUnboxReference(m: Machine, t: TypeDesc)
    requires !t.isValueType && m.stack != []
    ensures Step(UnboxAny(t), m) == Some(m)
  {
  }

  lemma StepBox(m: Machine, s: seq<Value>, t: TypeDesc, v: Value)
    requires m.stack == s + [v]
    ensures Step(Box(t), m) == Some(m.(stack := s + [Boxed(v)]))
  {
    assert m.stack[..|m.stack| - 1] == s;
  }

  lemma StepAlloc(m: Machine, s: seq<Value>, v: Value)
    requires m.stack == s + [v]
    ensures Step(HandleAlloc, m)
      == Some(m.(stack := s + [HandleVal(m.nextKey)], handles := m.handles[m.nextKey := v], nextKey := m.nextKey + 1))
  {
    assert m.stack[..|m.stack| - 1] == s;
  }

  lemma StepToIntPtr(m: Machine, s: seq<Value>, k: int)
    requires m.stack == s + [HandleVal(k)]
    ensures Step(HandleToIntPtr, m) == Some(m.(stack := s + [IntPtrVal(k)]))
  {
    assert m.stack[..|m.stack| - 1] == s;
  }

  /** Running two pieces of code one after the other. */
  lemma {:induction false} ExecAppend(a: seq<Instr>, b: seq<Instr>, m: Machine)
    ensures Exec(a + b, m) == match Exec(a, m) case None => None case Some(m') => Exec(b, m')
  {
    if a == [] {
      assert a + b == b;
    } else {
      assert (a + b)[0] == a[0];
      assert (a + b)[1..] == a[1..] + b;
      match Step(a[0], m)
      case None =>
      case Some(m1) => ExecAppend(a[1..], b, m1);
    }
  }

  /** Code without Alloc or Free leaves the handle table and the next key
      alone whenever it completes. */
  lemma {:induction false} ExecKeepsHandles(code: seq<Instr>, m: Machine)
    requires HandleAlloc !in code && HandleFree !in code
    ensures Exec(code, m).Some? ==>
      Exec(code, m).value.handles == m.handles && Exec(code, m).value.nextKey == m.nextKey
      && Exec(code, m).value.args == m.args
  {
    if code != [] {
      assert code[0] in code;
      match Step(code[0], m)
      case None =>
      case Some(m1) => ExecKeepsHandles(code[1..], m1);
    }
  }
}
