# TCCSharp binder, modelled in Dafny

TCCSharp lets C code compiled in memory by the Tiny C Compiler call into
.NET classes. The `Binder` walks a class's public properties, fields,
methods and constructors. For each one it generates a *thunk*: a dynamic
method whose signature C can call. It registers the thunk with the compiler
under a lower-case C symbol name such as `point_get_x`, `point_move` or
`point_new_int32int32`.

Values the C side cannot hold directly travel as an `IntPtr` naming a
`GCHandle`. A thunk takes such values apart and builds them up again with
the helpers in `ILHelper`:

- it unwraps its receiver and its opaque arguments from their handles;
- it performs the member access (call, callvirt, newobj, ldfld, stfld);
- it wraps an opaque result in a fresh handle;
- one shared `gc_free` thunk frees a handle.

`StringInjectExtension` fills symbol templates. It replaces `{key}` and
`{key:spec}` placeholders with a value's text. The specifier characters
`U`, `L`, `u`, `l` and `s` change the case of the text or split it at
capitals.

The model has eight modules:

- `Prelude` (`prelude.dfy`): an option type standing for a nullable
  reference, and ASCII case mapping.
- `ClrTypes` (`clrtypes.dfy`): type and member descriptors in place of
  reflection, and the allow-list of types that cross the boundary by value
  (`IsMarshallableType`).
- `IL` (`il.dfy`): the `ILGenerator` as a class that accumulates
  instructions and locals. It also defines a small machine that runs the
  marshalling instructions against a table of live handles. Allocation
  hands out a fresh key; resolving or freeing needs a live key.
- `ILHelper` (`ilhelper.dfy`): `GetGCHandle`, `GetClass`, `WrapClass` and
  `MarshalMethodArgs` as methods that emit into the generator. Each is
  proved to emit a pattern given as a function. Lemmas say what each pattern
  does when it runs.
- `Binder`, `BinderFacts` and `BindingFacts` (`binder.dfy`,
  `binder_facts.dfy`, `binding_facts.dfy`):
  - each `Generate*` method, proved to build the thunk a function
    describes;
  - the `Binder` class, with `BindClass` split into its four loops over a
    `Compiler` whose symbol table `AddSymbolNative` extends;
  - lemmas on signatures, dispatch, handle use, naming, and which members
    are bound.
- `StringInject` (`stringinject.dfy`): `FormatSymbol`, `InjectSingleValue`
  and `Inject` as loops, each proved against a fold that specifies it, with
  lemmas on the transforms. A template is also written as a list of pieces,
  literal text and placeholders, with an independent reference `Resolve`
  that fills each placeholder from a table. Injection into any such
  template is proved to equal that reference.

Where the binder's evident intent and the code differ, the model follows
the code:

- Property accessors of a reference type are invoked with `callvirt`
  (`TCC/Binder.cs:330-333`, `372-375`), as methods are.
- A property without a public get or set accessor is not skipped. Reading
  `IsPublic` on the null accessor raises `NullReferenceException`
  (`TCC/Binder.cs:49`, `52`). This stops `BindClass` after the symbols
  registered so far; the model's `Outcome.NullReference` stands for that.
- Constructor names run the parameter type names together without a
  separator, so two different constructors can get the same symbol.
- Method overloads all get the same symbol.
- No naming template or name-override attribute is consulted.
- `GetClass` (`TCC/ILHelper.cs:33-37`) spills an unboxed value type into a
  fresh local and pushes that local's address, not the value. A wrapped
  value-type parameter (`TCC/Binder.cs:144`, `213`) therefore reaches the
  member as the address of a copy. So does the opaque value a setter stores
  (`TCC/Binder.cs:294`, `370`). The receiver of a struct class is such a
  copy too, so a field or property setter on a struct writes into the
  spilled copy, and the boxed object the handle names is left unchanged.
  `ILHelper.GetClassEffect` and `ILHelper.WrapThenResolve` state this.

## Model

| member | source | states |
|---|---|---|
| `ClrTypes.BoundaryType` | TCC/Binder.cs:406-409 | The boundary type is always marshallable; it is the type itself exactly when that type is marshallable, and IntPtr otherwise |
| `ClrTypes.MarshallableCases` | TCC/Binder.cs:16-29 | An allow-listed type, an array of an allow-listed element type and any enum keep their own type; every other type becomes IntPtr |
| `ClrTypes.ForeignNamespaceWrapped` | TCC/Binder.cs:406-409 | The allow-list compares whole types, not simple names: a type outside System and System.Text that is neither an enum nor an array becomes IntPtr, even when it is called Int32 or String |
| `Prelude.ToUpperIdempotent` | TCC/StringInjectExtension.cs:108-110 | Upper-casing twice is upper-casing once, and leaves no lower-case letter |
| `Prelude.ToLowerIdempotent` | TCC/StringInjectExtension.cs:111-113 | Lower-casing twice is lower-casing once, and leaves no upper-case letter |
| `ILHelper.GetGCHandle` | TCC/ILHelper.cs:15-21 | Declares one GCHandle local and emits FromIntPtr, a store into that new local and a load of its address |
| `ILHelper.GetGCHandleEffect` | TCC/ILHelper.cs:15-21 | Run on an IntPtr, that code stores the handle in the new local and leaves the local's address in place of the IntPtr |
| `ILHelper.GetClass` | TCC/ILHelper.cs:28-39 | Emits GetGCHandle, Target and unbox.any; for a value type it also declares a second local, spills into it and loads its address |
| `ILHelper.GetClassEffect` | TCC/ILHelper.cs:28-39 | Run on a dead key the code fails; on a live key it leaves the target object, or for a value type the address of a local holding a copy of the unboxed value |
| `ILHelper.WrapClass` | TCC/ILHelper.cs:46-52 | Emits box only for a value type, then Alloc and ToIntPtr; declares no local |
| `ILHelper.WrapClassEffect` | TCC/ILHelper.cs:46-52 | Run, that code allocates the next key for the value (boxed for a value type) and leaves its IntPtr |
| `ILHelper.WrapClassFresh` | TCC/ILHelper.cs:50 | The key Alloc hands out was not live, and the handle table stays consistent |
| `ILHelper.WrapThenResolve` | TCC/ILHelper.cs:28-52 | Wrapping a value and then resolving the new handle gives back the object, or for a value type the address of a local holding an equal copy |
| `ILHelper.MarshalMethodArgs` | TCC/ILHelper.cs:62-82 | Emits the receiver slot (when not static) and then one slot per marshalTypes entry, as MarshalCode describes, and declares the locals MarshalLocals lists |
| `ILHelper.MarshalLoadsInOrder` | TCC/ILHelper.cs:64-81 | The emitted code loads arguments 0, 1, 2, ... in order, each once, with one more load than there are marshalTypes when there is a receiver |
| `ILHelper.MarshalUnwrapIff` | TCC/ILHelper.cs:66-81 | The code resolves a handle exactly when there is a receiver or some marshalTypes entry is flagged as wrapped |
| `ILHelper.ArgsUnwrapIffWrapped` | TCC/ILHelper.cs:73-81 | The argument loop resolves a handle exactly when one of its slots is flagged as wrapped |
| `ILHelper.ArgsOnlyMarshalling` | TCC/ILHelper.cs:73-81 | The argument loop emits only argument and local loads and stores and the GCHandle and unbox steps |
| `ILHelper.MarshalRuns` | TCC/ILHelper.cs:62-82 | When every wrapped argument holds a live key, the code completes, keeps the handle table, the stack below it and the earlier locals, and pushes one value per slot |
| `ILHelper.MarshalDeliversReceiver` | TCC/ILHelper.cs:66-71 | The first value pushed for an instance member is the receiver its handle keeps (a local copy for a value type) |
| `ILHelper.MarshalDeliversParam` | TCC/ILHelper.cs:73-81 | Parameter i lands at stack position i (after the receiver): an unflagged argument unchanged, a flagged one resolved from its handle |
| `ILHelper.MarshalFailsOnDeadHandle` | TCC/ILHelper.cs:62-82 | A receiver or flagged argument whose key is not live makes the code fail |
| `ILHelper.ArgsFailOnDeadHandle` | TCC/ILHelper.cs:73-81 | Within the argument loop, one flagged slot with a dead key makes the whole loop fail |
| `Binder.AddParameters` | TCC/Binder.cs:172-184 | Appends each parameter's boundary type to the list, and records in marshalTypes exactly the non-marshallable parameters as wrapped |
| `Binder.GenerateConstructor` | TCC/Binder.cs:101-158 | Builds exactly ConstructorThunk: the argument loop, newobj, a wrap when the class is not marshallable, ret |
| `Binder.GenerateMethod` | TCC/Binder.cs:160-230 | Builds exactly MethodThunk: receiver and argument marshalling, call or callvirt, a wrap of an opaque result, ret |
| `Binder.GenerateFieldGetter` | TCC/Binder.cs:232-267 | Builds exactly FieldGetterThunk: the unwrapped receiver of an instance field, ldfld or ldsfld, a wrap of an opaque field |
| `Binder.GenerateFieldSetter` | TCC/Binder.cs:269-306 | Builds exactly FieldSetterThunk: receiver and value loaded as a one-parameter call would load them, stfld or stsfld |
| `Binder.SetterPrologue` | TCC/Binder.cs:286-294 | The setters' prologue is the marshalling code of a member with the one parameter `value` |
| `Binder.GeneratePropertyGetter` | TCC/Binder.cs:308-343 | Builds exactly PropertyGetterThunk, and None where GetGetMethod() is null |
| `Binder.GeneratePropertySetter` | TCC/Binder.cs:345-382 | Builds exactly PropertySetterThunk, and None where GetSetMethod() is null |
| `Binder.GenerateGCFree` | TCC/Binder.cs:384-404 | Builds exactly GCFreeThunk: void(IntPtr), ldarg.0, GetGCHandle, Free, ret |
| `Binder.ConstructorName` | TCC/Binder.cs:85-89 | The loop concatenates the lower-cased parameter type names, in order |
| `Binder.Compiler.AddSymbolNative` | TCC/CC.cs:181-189 | Appends the (name, thunk) pair to the compiler's symbol table and changes nothing else |
| `Binder.Binder.constructor` | TCC/Binder.cs:31-37 | A new Binder registers exactly one symbol, gc_free bound to the gc_free thunk |
| `Binder.Binder.BindClass` | TCC/Binder.cs:39-99 | The compiler's table grows by exactly ClassBindings: the property, field, method and constructor symbols in that order; the outcome says whether a null accessor stopped it |
| `Binder.Binder.BindProperties` | TCC/Binder.cs:43-54 | The property loop appends each property's getter then setter, and stops with NullReference at the first null accessor |
| `Binder.Binder.BindFields` | TCC/Binder.cs:56-67 | The field loop appends a getter and a setter for each public field, in order |
| `Binder.Binder.BindMethods` | TCC/Binder.cs:69-79 | The method loop appends one symbol per public, non-special-name method, in order |
| `Binder.Binder.BindConstructors` | TCC/Binder.cs:81-98 | The constructor loop appends one symbol per public constructor, named klass_new, plus `_` and the type names when it has parameters |
| `Binder.PropertiesFaultSticks` | TCC/Binder.cs:45-54 | After a property has faulted, later properties add nothing |
| `BinderFacts.BoundaryParamsFacts` | TCC/Binder.cs:169-184 | The boundary parameters follow the receiver one for one, each the boundary type of its declared parameter |
| `BinderFacts.MethodThunkSignature` | TCC/Binder.cs:162-188 | A method thunk takes one more parameter than the method exactly when it is an instance method, that first parameter being IntPtr, and returns the return type's boundary type |
| `BinderFacts.MethodThunkParameterTypes` | TCC/Binder.cs:169-184 | Declared parameter i sits right after the receiver (position i, or i + 1 for an instance method) as its boundary type |
| `BinderFacts.MethodThunkCallable` | TCC/Binder.cs:162-188 | Every type in a method thunk's signature crosses the boundary directly |
| `BinderFacts.MethodThunkDispatch` | TCC/Binder.cs:217-220 | The method is invoked once, right after the marshalling code: callvirt exactly for an instance method of a reference type, call otherwise |
| `BinderFacts.ConstructorThunkSignature` | TCC/Binder.cs:104-126 | A constructor thunk has no receiver: parameter i is the boundary type of declared parameter i, and it returns the class's boundary type |
| `BinderFacts.ConstructorThunkCallable` | TCC/Binder.cs:104-126 | Every type in a constructor thunk's signature crosses the boundary directly |
| `BinderFacts.ConstructorThunkCode` | TCC/Binder.cs:138-153 | newobj follows the argument code directly, and the thunk allocates a handle exactly when the class is opaque |
| `BinderFacts.FieldGetterThunkFacts` | TCC/Binder.cs:234-257 | A field getter takes nothing for a static field and one IntPtr otherwise, returns the field's boundary type, and reads with ldsfld or ldfld |
| `BinderFacts.FieldSetterThunkFacts` | TCC/Binder.cs:271-299 | A field setter takes [value] or [IntPtr, value] at the field's boundary type, returns void, writes with stsfld or stfld, and allocates no handle |
| `BinderFacts.PropertyGetterThunkFacts` | TCC/Binder.cs:310-333 | A getter thunk exists exactly when there is a public get accessor; it takes a receiver exactly for an instance accessor, returns the boundary type and dispatches as a method would |
| `BinderFacts.PropertySetterThunkFacts` | TCC/Binder.cs:347-375 | A setter thunk exists exactly when there is a public set accessor; its parameters are the optional receiver and the value's boundary type; it returns void and allocates no handle |
| `BinderFacts.ReturnCodeContents` | TCC/Binder.cs:222-223 | What follows the member access is only box, Alloc and ToIntPtr, and it allocates exactly when the result type is opaque |
| `BinderFacts.ThunkCodeLayout` | TCC/Binder.cs:198-225 | A thunk body is the marshalling code, the one member access, the return code and a ret that occurs only at the very end |
| `BinderFacts.ThunkCodeHandles` | TCC/Binder.cs:198-225 | A thunk allocates a handle exactly when its result is opaque, never frees one, and resolves one exactly when it has a receiver or a wrapped parameter |
| `BinderFacts.ThunkReachesMember` | TCC/Binder.cs:198-217 | With live handles for every wrapped argument, a thunk reaches its member access in the state the marshalling code leaves, with the handle table untouched |
| `BinderFacts.ThunkFaultsBeforeMember` | TCC/Binder.cs:198-215 | A receiver or wrapped argument whose key is not live stops the thunk before the member access |
| `BinderFacts.ThunkReturns` | TCC/Binder.cs:222-225 | After the access, a marshallable result is returned as it is, and an opaque one is wrapped under a key that was not live |
| `BinderFacts.GCFreeEffect` | TCC/Binder.cs:396-399 | gc_free on a live key removes exactly that key from the handle table; on a key that is not live it does not complete |
| `BinderFacts.GCFreeNullFaults` | TCC/Binder.cs:396-399 | gc_free called with the null handle (IntPtr.Zero) does not complete, because key 0 is never live |
| `BinderFacts.GCFreeReachesFree` | TCC/Binder.cs:396-397 | gc_free stores its argument's handle in local 0 and reaches Free with that local's address on the stack |
| `BinderFacts.ReceiverAfterFree` | TCC/Binder.cs:384-399 | Once gc_free has freed a handle, an instance thunk given that handle as its receiver stops before the member access |
| `BindingFacts.FieldsSymbolsIff` | TCC/Binder.cs:56-67 | A symbol is bound for the fields exactly when it is the getter or the setter of a public field |
| `BindingFacts.MethodsSymbolsIff` | TCC/Binder.cs:69-79 | A symbol is bound for the methods exactly when it is the symbol of a public method that is not special-name |
| `BindingFacts.ConstructorsSymbolsIff` | TCC/Binder.cs:81-98 | A symbol is bound for the constructors exactly when it is the symbol of a public constructor |
| `BindingFacts.PropertyFaultIff` | TCC/Binder.cs:49-53 | One property faults exactly when it has no public get accessor or no public set accessor |
| `BindingFacts.PropertiesFaultIff` | TCC/Binder.cs:45-54 | The property loop ends in NullReference exactly when some property lacks a public accessor |
| `BindingFacts.PropertiesFaultStep` | TCC/Binder.cs:45-54 | The loop has faulted after a property exactly when it had faulted before it or faults on it |
| `BindingFacts.ClassFaultIff` | TCC/Binder.cs:39-54 | BindClass raises NullReferenceException exactly when the class has a property without a public getter or setter, a read-only property for instance |
| `BindingFacts.PropertyBound` | TCC/Binder.cs:47-53 | A property with both public accessors binds klass_get_p and then klass_set_p |
| `BindingFacts.PropertiesSymbolsAt` | TCC/Binder.cs:45-54 | When no property faults, property i yields symbols 2i and 2i+1 and nothing else is bound |
| `BindingFacts.NamesPrefixed` | TCC/Binder.cs:50-95 | Getter, setter, method and constructor names all start with the lower-cased class name and `_` |
| `BindingFacts.PropertyPrefixed` | TCC/Binder.cs:47-53 | The symbols of one property are named after the class |
| `BindingFacts.PropertiesPrefixed` | TCC/Binder.cs:45-54 | Every property symbol is named after the class |
| `BindingFacts.ClassSymbolsPrefixed` | TCC/Binder.cs:41-98 | Every symbol BindClass registers starts with the lower-cased class name and `_` |
| `BindingFacts.ParameterTypeNamesAppend` | TCC/Binder.cs:88-89 | The constructor name of a concatenated parameter list is the concatenation of the names |
| `BindingFacts.ParameterTypeNamesLower` | TCC/Binder.cs:88-89 | The constructor name part holds no upper-case letter |
| `BindingFacts.MethodOverloadsCollide` | TCC/Binder.cs:73-77 | Two public overloads with one lower-cased name give two registered symbols with the same C name |
| `BindingFacts.MethodBoundAt` | TCC/Binder.cs:71-78 | Every public, non-special-name method's symbol is at some position of the registration order |
| `BindingFacts.MethodsPrefix` | TCC/Binder.cs:71-78 | The symbols bound for a prefix of the method list come first |
| `BindingFacts.ConstructorNamesCollide` | TCC/Binder.cs:88-95 | Constructors (Ab, C) and (A, Bc) are both bound as klass_new_abc |
| `BindingFacts.GCFreeShadowed` | TCC/Binder.cs:36-77 | A class named Gc with a public method Free registers a second gc_free symbol |
| `StringInject.SplitAtCapitalsShape` | TCC/StringInjectExtension.cs:120-123 | Splitting never shortens the symbol and keeps its first and last characters |
| `StringInject.SplitThenJoin` | TCC/StringInjectExtension.cs:120-123 | Dropping the inserted underscores gives back the original symbol: splitting only inserts |
| `StringInject.JoinSnoc` | TCC/StringInjectExtension.cs:120-123 | Joining undoes the split of one more character |
| `StringInject.SplitMarksCapitals` | TCC/StringInjectExtension.cs:120-123 | After the split, every upper-case letter past the first character is preceded by `_` |
| `StringInject.FormatSymbol` | TCC/StringInjectExtension.cs:102-130 | The specifier loop gives Format: the characters applied from left to right, faulting where `u` or `l` meets an empty symbol |
| `StringInject.FormatFaultSticks` | TCC/StringInjectExtension.cs:114-119 | Once a specifier character has faulted, the result is the fault |
| `StringInject.FormatAppend` | TCC/StringInjectExtension.cs:104-127 | Formatting with a + b is formatting with a and then with b |
| `StringInject.FormatIgnoresUnknown` | TCC/StringInjectExtension.cs:124-125 | A specifier made only of unknown characters, or empty, leaves the symbol unchanged |
| `StringInject.CaseIdempotent` | TCC/StringInjectExtension.cs:108-113 | `UU` is `U`, the upper-cased symbol, and `LL` is `L`, the lower-cased symbol |
| `StringInject.FirstCharOnly` | TCC/StringInjectExtension.cs:114-119 | `u` and `l` fault exactly on the empty symbol, and otherwise change the case of the first character only |
| `StringInject.ApplyKeepsEmptiness` | TCC/StringInjectExtension.cs:106-126 | No transform turns an empty symbol into a non-empty one or back |
| `StringInject.FormatFaultIff` | TCC/StringInjectExtension.cs:104-127 | FormatSymbol faults exactly when the symbol is empty and the specifier holds `u` or `l` |
| `StringInject.MatchAtShape` | TCC/StringInjectExtension.cs:67 | A match is `{key}` or `{key:format}` with a format of one non-newline character and then no `}`, found where it occurs |
| `StringInject.MatchAtPlaceholder` | TCC/StringInjectExtension.cs:67 | Conversely, every such placeholder spelled out in the string is matched there |
| `StringInject.MatchesAreWellFormed` | TCC/StringInjectExtension.cs:67-70 | Every match the search returns is a well-formed placeholder for the key |
| `StringInject.UnmatchedNoMatches` | TCC/StringInjectExtension.cs:67-70 | Where the pattern matches at no position from i on, the search from i returns nothing |
| `StringInject.MatchesSkip` | TCC/StringInjectExtension.cs:67-70 | The search passes over a stretch without `{` |
| `StringInject.ReplaceAllAbsent` | TCC/StringInjectExtension.cs:82 | Replace leaves a string unchanged when the first character of the replaced text never occurs in it |
| `StringInject.ReplaceAllSkip` | TCC/StringInjectExtension.cs:82 | Replace passes over a prefix that cannot start an occurrence |
| `StringInject.ReplaceAllHead` | TCC/StringInjectExtension.cs:82 | An occurrence at the start is replaced |
| `StringInject.ReplaceTemplate` | TCC/StringInjectExtension.cs:82 | The one occurrence of a text in a template is replaced and the rest kept |
| `StringInject.InjectSingleValue` | TCC/StringInjectExtension.cs:62-86 | The match loop gives Substitute: each match of the original string, in order, replaced throughout the current result by its replacement |
| `StringInject.NoMatchUnchanged` | TCC/StringInjectExtension.cs:64-84 | A string in which the key's pattern matches nowhere comes back unchanged, whatever the value |
| `StringInject.TemplateMatches` | TCC/StringInjectExtension.cs:67-70 | A template whose only `{` starts a placeholder for the key has that placeholder as its one match |
| `StringInject.InjectTemplate` | TCC/StringInjectExtension.cs:62-86 | In such a template, `{key}` becomes the value's text (null giving the empty string) and `{key:spec}` the text formatted by spec, or the fault FormatSymbol raises |
| `StringInject.InjectWhole` | TCC/StringInjectExtension.cs:75-79 | A template that is just `{key}` becomes the value's text |
| `StringInject.Inject` | TCC/StringInjectExtension.cs:42-53 | A null format string or table gives the format string back; otherwise each entry is injected in enumeration order, a fault ending the loop |
| `StringInject.InjectAllNoPlaceholder` | TCC/StringInjectExtension.cs:42-53 | A string without `{` comes out of Inject unchanged, whatever the table holds |
| `StringInject.InjectAllSnoc` | TCC/StringInjectExtension.cs:48-51 | Injecting one more entry is InjectSingleValue applied to the result so far |
| `StringInject.InjectOrderMatters` | TCC/StringInjectExtension.cs:48-51 | A value that holds a placeholder is injected into by later keys, so the table's enumeration order changes the result |
| `StringInject.NoForeignMatch` | TCC/StringInjectExtension.cs:67 | A placeholder for a different key is no match for this key's pattern, even when one key is a prefix of the other |
| `StringInject.MatchesOfTemplate` | TCC/StringInjectExtension.cs:67-70 | In a rendered template the search finds exactly the template's placeholders for the key, in order, each with its own format |
| `StringInject.ReplaceRendered` | TCC/StringInjectExtension.cs:82 | Replacing one placeholder's text throughout a template replaces exactly the placeholders spelled with that key and format, and keeps everything else |
| `StringInject.FormatNoOpen` | TCC/StringInjectExtension.cs:102-130 | FormatSymbol never introduces a `{` |
| `StringInject.SubstituteRendered` | TCC/StringInjectExtension.cs:70-83 | On a template, the match loop over any list of the key's placeholders faults exactly when one of their formats faults, and otherwise fills exactly the placeholders whose format is among them |
| `StringInject.InjectSingleValueFills` | TCC/StringInjectExtension.cs:62-86 | On a template, with a value whose text holds no `{`, InjectSingleValue is the reference with a one-key table: every placeholder for the key becomes the value's text under its own format, whatever the other placeholders, and a faulting format makes it fault |
| `StringInject.ResolveCompose` | TCC/StringInjectExtension.cs:48-51 | Filling from a table and then one more key is filling from the extended table |
| `StringInject.InjectFills` | TCC/StringInjectExtension.cs:42-53 | For distinct keys and values whose texts hold no `{`, Inject on a template is the reference filled from the whole table: each value lands in its own key's placeholders, in any enumeration order |
| `StringInject.InjectOrderIrrelevant` | TCC/StringInjectExtension.cs:48-51 | Under those conditions two enumerations of one table give one result |

## Left out

- TCC/CC.cs is not part of this model, apart from `AddSymbolNative`, which
  appends to a symbol table. The `tcc_add_symbol` failure that throws, and
  every other libtcc call, are foreign calls. TCC/DelegateWrapper.cs is not
  part of this model either: it builds delegate types and calli stubs at
  run time. The delegate type a thunk is wrapped in is represented by the
  thunk's boundary signature.
- TCC/BinderAttributes.cs: the name override it holds is never read by the
  binder.
- `GetPropertyHash` (TCC/StringInjectExtension.cs:139-152) and the two
  `Inject` overloads built on it (lines 18-33) are left out: they read
  properties and dictionaries by reflection. `Inject` takes the table's
  entries as a sequence in the order `Hashtable` enumerates them. That order
  is unspecified, so it is an input, and `InjectOrderMatters` shows that it
  can change the result.
- Values in the table are strings or null; calling `ToString` on other
  values is not modelled. A non-string key, which makes the `foreach` throw
  InvalidCastException, is not modelled either.
- Templates: the results on templates (`InjectSingleValueFills`,
  `InjectFills`, `InjectOrderIrrelevant`) cover templates in which every `{`
  begins a placeholder, formats hold no `{`, keys hold no `{`, `}` or `:`,
  and values hold no `{`. A value with a `{` can be injected into by a
  later key, which `InjectOrderMatters` shows. A shorter key can match the
  placeholder of a longer key that contains `:`; for instance `a` matches
  `{a:b}`.
- `StringInject.MatchAt`: the regular expression is matched directly, not
  by a regex engine. The key is spliced into the pattern unescaped. The
  model treats it as literal text, which is what the pattern does for keys
  that are plain identifiers.
- Culture-sensitive `ToUpper`/`ToLower` are modelled as ASCII case mapping.
- Reflection is represented by descriptors. `GetProperties`, `GetFields`,
  `GetMethods` and `GetConstructors` return their members in the order of
  the descriptor lists. Indexed properties are not represented.
- Dynamic method names (`"TCC" + klass.Name + ...`) are not modelled. They
  do not affect what a thunk does.
- Member invocation (call, callvirt, newobj, field loads and stores) is not
  interpreted by the machine. Lemmas run a thunk up to its member access,
  and from the value the access leaves behind to the end.
- `ret` leaves the machine state as it is; each thunk body ends in its only
  `ret`.
- Use of a handle that is not live: the machine stops (no result) when a
  key that is not live is resolved or freed. This stands for the rule that
  a key must be live. Key 0 stands for IntPtr.Zero and is never live, so a
  null handle from C stops the machine too. The model does not claim which
  exception the runtime raises, or that a double free is detected.
- The machine's values carry no type. `unbox.any` on a handle's target
  (`TCC/ILHelper.cs:31-32`) always succeeds for a reference type, and for a
  value type it only checks that the value is boxed. The InvalidCastException
  the runtime raises when a live handle names an object of another type is
  not modelled. `MarshalRuns`, `MarshalDeliversReceiver`,
  `MarshalDeliversParam` and `ThunkReachesMember` therefore describe the
  program only for handles whose objects have the slot's type.
- Assemblies: a type is identified by its namespace and simple name, so two
  types with the same full name loaded from different assemblies are one
  type here, while the allow-list check in `TCC/Binder.cs:408` tells them
  apart.
- Integers are unbounded: handle keys are never exhausted or reused. Local
  indices are not truncated either. `GetGCHandle` and `GetClass`
  (`TCC/ILHelper.cs:20`, `37`) emit `ldloca.s` with an `int` operand, and
  `ldloca.s` reads one byte of it. Thunks with more than 255 locals, which
  would load the wrong local and run the remaining operand bytes as code,
  are not modelled: `Ldloca` always names its own local.
