/** What BindClass binds: which C names it registers, for which members,
    when it stops at a NullReferenceException, and where two members end
    up under one name. */
module BindingFacts {
  import opened Prelude
  import opened ClrTypes
  import opened Binder

  // ---------------------------------------------------------------------
  // Which members are bound

  /** The fields bound are exactly the public ones, each by a getter and a
      setter. */
  lemma {:induction false} FieldsSymbolsIff(klassName: string, t: TypeDesc, fields: seq<FieldDesc>)
    ensures forall s :: s in FieldsSymbols(klassName, t, fields) <==>
      exists f :: f in fields && f.isPublic && (s == FieldGetterSymbol(klassName, t, f) || s == FieldSetterSymbol(klassName, t, f))
  {
    if fields != [] {
      var init := fields[..|fields| - 1];
      var last := fields[|fields| - 1];
      FieldsSymbolsIff(klassName, t, init);
      assert fields == init + [last];
      assert forall f :: f in fields <==> f in init || f == last;
    }
  }

  /** The methods bound are exactly the public ones that are not special
      (accessors, operators). */
  lemma {:induction false} MethodsSymbolsIff(klassName: string, t: TypeDesc, methods: seq<MethodDesc>)
    ensures forall s :: s in MethodsSymbols(klassName, t, methods) <==>
      exists m :: m in methods && m.isPublic && !m.isSpecialName && s == MethodSymbol(klassName, t, m)
  {
    if methods != [] {
      var init := methods[..|methods| - 1];
      var last := methods[|methods| - 1];
      MethodsSymbolsIff(klassName, t, init);
      assert methods == init + [last];
      assert forall m :: m in methods <==> m in init || m == last;
    }
  }

  /** The constructors bound are exactly the public ones. */
  lemma {:induction false} ConstructorsSymbolsIff(klassName: string, t: TypeDesc, ctors: seq<ConstructorDesc>)
    ensures forall s :: s in ConstructorsSymbols(klassName, t, ctors) <==>
      exists c :: c in ctors && c.isPublic && s == ConstructorSymbol(klassName, t, c)
  {
    if ctors != [] {
      var init := ctors[..|ctors| - 1];
      var last := ctors[|ctors| - 1];
      ConstructorsSymbolsIff(klassName, t, init);
      assert ctors == init + [last];
      assert forall c :: c in ctors <==> c in init || c == last;
    }
  }

  // ---------------------------------------------------------------------
  // Properties, and the NullReferenceException

  /** One property faults exactly when it lacks a public accessor. */
  lemma PropertyFaultIff(klassName: string, t: TypeDesc, p: PropertyDesc)
    ensures PropertyBindings(klassName, t, p).outcome == NullReference <==> Unbindable(p)
  {
  }

  /** The property loop stops exactly when some property lacks a public get
      or set accessor. */
  lemma {:induction false} PropertiesFaultIff(klassName: string, t: TypeDesc, props: seq<PropertyDesc>)
    ensures PropertiesBindings(klassName, t, props).outcome == NullReference
        <==> exists p :: p in props && Unbindable(p)
  {
    if props != [] {
      var init := props[..|props| - 1];
      var last := props[|props| - 1];
      PropertiesFaultIff(klassName, t, init);
      PropertyFaultIff(klassName, t, last);
      PropertiesFaultStep(klassName, t, props);
      SnocMembers(props);
    }
  }

  /** The elements of a non-empty sequence: those before the last, and the
      last. */
  lemma SnocMembers<T>(s: seq<T>)
    requires s != []
    ensures forall x :: x in s <==> x in s[..|s| - 1] || x == s[|s| - 1]
  {
    assert s == s[..|s| - 1] + [s[|s| - 1]];
  }

  /** The loop has faulted after a property exactly when it had faulted
      before it or faults on it. */
  lemma PropertiesFaultStep(klassName: string, t: TypeDesc, props: seq<PropertyDesc>)
    requires props != []
    ensures PropertiesBindings(klassName, t, props).outcome == NullReference
        <==> PropertiesBindings(klassName, t, props[..|props| - 1]).outcome == NullReference
             || PropertyBindings(klassName, t, props[|props| - 1]).outcome == NullReference
  {
  }

  /** BindClass raises NullReferenceException exactly when the class has a
      property without a public get accessor or without a public set
      accessor, such as a read-only property. */
  lemma ClassFaultIff(c: ClassDesc)
    ensures ClassBindings(c).outcome == NullReference
        <==> exists p :: p in c.properties && Unbindable(p)
  {
    PropertiesFaultIff(ToLower(c.typeDesc.name), c.typeDesc, c.properties);
  }

  /** A property that binds gives its getter and then its setter. */
  lemma PropertyBound(klassName: string, t: TypeDesc, p: PropertyDesc)
    requires !Unbindable(p)
    ensures PropertyGetterThunk(t, p).Some? && PropertySetterThunk(t, p).Some?
    ensures PropertyBindings(klassName, t, p)
      == Bindings([Symbol(GetterName(klassName, ToLower(p.name)), PropertyGetterThunk(t, p).value),
                   Symbol(SetterName(klassName, ToLower(p.name)), PropertySetterThunk(t, p).value)], Completed)
  {
  }

  /** A property that binds gives exactly two symbols. */
  lemma PropertyBoundTwo(klassName: string, t: TypeDesc, p: PropertyDesc)
    requires !Unbindable(p)
    ensures |PropertyBindings(klassName, t, p).symbols| == 2
  {
    PropertyBound(klassName, t, p);
  }

  /** When every property binds, property i gives symbols 2i and 2i + 1,
      and nothing else is bound. */
  lemma {:induction false} PropertiesSymbolsAt(klassName: string, t: TypeDesc, props: seq<PropertyDesc>)
    requires PropertiesBindings(klassName, t, props).outcome == Completed
    ensures var ss := PropertiesBindings(klassName, t, props).symbols;
      |ss| == 2 * |props|
      && forall i :: 0 <= i < |props| ==>
           !Unbindable(props[i])
           && ss[2 * i] == PropertyBindings(klassName, t, props[i]).symbols[0]
           && ss[2 * i + 1] == PropertyBindings(klassName, t, props[i]).symbols[1]
  {
    if props != [] {
      var init := props[..|props| - 1];
      var last := props[|props| - 1];
      var before := PropertiesBindings(klassName, t, init).symbols;
      var lastSymbols := PropertyBindings(klassName, t, last).symbols;
      assert PropertiesBindings(klassName, t, init).outcome == Completed;
      PropertiesSymbolsAt(klassName, t, init);
      PropertyFaultIff(klassName, t, last);
      PropertyBoundTwo(klassName, t, last);
      var ss := PropertiesBindings(klassName, t, props).symbols;
      assert ss == before + lastSymbols;
      forall i | 0 <= i < |props|
        ensures !Unbindable(props[i])
        ensures ss[2 * i] == PropertyBindings(klassName, t, props[i]).symbols[0]
        ensures ss[2 * i + 1] == PropertyBindings(klassName, t, props[i]).symbols[1]
      {
        if i < |init| {
          assert props[i] == init[i];
          assert ss[2 * i] == before[2 * i] && ss[2 * i + 1] == before[2 * i + 1];
        } else {
          assert i == |init|;
          assert ss[2 * i] == lastSymbols[0] && ss[2 * i + 1] == lastSymbols[1];
        }
      }
    }
  }

  // ---------------------------------------------------------------------
  // Names

  predicate HasPrefix(s: string, prefix: string)
  {
    |prefix| <= |s| && s[..|prefix|] == prefix
  }

  lemma PrefixOfAppend(a: string, b: string, c: string)
    ensures HasPrefix(a + b + c, a + b) && HasPrefix(a + b, a)
    ensures HasPrefix(a + b + c, a)
  {
    assert (a + b + c)[..|a + b|] == a + b;
    assert (a + b)[..|a|] == a;
    assert (a + b + c)[..|a|] == a;
  }

  /** Every name BindClass builds starts with the lower-cased class name
      and an underscore. */
  lemma NamesPrefixed(klassName: string, memberName: string, c: ConstructorDesc)
    ensures HasPrefix(GetterName(klassName, memberName), klassName + "_")
    ensures HasPrefix(SetterName(klassName, memberName), klassName + "_")
    ensures HasPrefix(MethodName(klassName, memberName), klassName + "_")
    ensures HasPrefix(ConstructorSymbolName(klassName, c), klassName + "_")
  {
    var g := GetterName(klassName, memberName);
    assert g == klassName + "_get_" + memberName;
    assert g[..|klassName| + 1] == klassName + "_";
    var s := SetterName(klassName, memberName);
    assert s[..|klassName| + 1] == klassName + "_";
    PrefixOfAppend(klassName, "_", memberName);
    var n := ConstructorSymbolName(klassName, c);
    assert n[..|klassName| + 1] == klassName + "_";
  }

  /** The lower-cased parameter type names of a constructor run together,
      so concatenating two parameter lists concatenates their names. */
  lemma {:induction false} ParameterTypeNamesAppend(a: seq<TypeDesc>, b: seq<TypeDesc>)
    ensures ParameterTypeNames(a + b) == ParameterTypeNames(a) + ParameterTypeNames(b)
    decreases |b|
  {
    if b == [] {
      assert a + b == a;
    } else {
      var init := b[..|b| - 1];
      var last := ToLower(b[|b| - 1].name);
      assert (a + b)[..|a + b| - 1] == a + init;
      assert (a + b)[|a + b| - 1] == b[|b| - 1];
      ParameterTypeNamesAppend(a, init);
      calc {
        ParameterTypeNames(a + b);
        ParameterTypeNames(a + init) + last;
        (ParameterTypeNames(a) + ParameterTypeNames(init)) + last;
        ParameterTypeNames(a) + (ParameterTypeNames(init) + last);
        ParameterTypeNames(a) + ParameterTypeNames(b);
      }
    }
  }

  /** They contain no upper-case letter. */
  lemma {:induction false} ParameterTypeNamesLower(ps: seq<TypeDesc>)
    ensures forall i :: 0 <= i < |ParameterTypeNames(ps)| ==> !IsUpper(ParameterTypeNames(ps)[i])
  {
    if ps != [] {
      ParameterTypeNamesLower(ps[..|ps| - 1]);
      ToLowerIdempotent(ps[|ps| - 1].name);
    }
  }

  /** Two public overloads of one method name are bound under the same C
      name: the registration order holds two symbols with one name. */
  lemma MethodOverloadsCollide(klassName: string, t: TypeDesc, methods: seq<MethodDesc>, i: nat, j: nat)
    requires i < j < |methods|
    requires methods[i].isPublic && !methods[i].isSpecialName
    requires methods[j].isPublic && !methods[j].isSpecialName
    requires ToLower(methods[i].name) == ToLower(methods[j].name)
    ensures var ss := MethodsSymbols(klassName, t, methods);
      exists p, q :: 0 <= p < q < |ss| && ss[p].name == ss[q].name
  {
    var pre := MethodsSymbols(klassName, t, methods[..j]);
    var p := MethodBoundAt(klassName, t, methods[..j], i);
    assert methods[..j + 1][..j] == methods[..j];
    var upTo := MethodsSymbols(klassName, t, methods[..j + 1]);
    assert upTo == pre + [MethodSymbol(klassName, t, methods[j])];
    MethodsPrefix(klassName, t, methods, j + 1);
    var ss := MethodsSymbols(klassName, t, methods);
    assert ss[p] == upTo[p] && ss[|pre|] == upTo[|pre|];
    assert ss[p].name == MethodName(klassName, ToLower(methods[i].name));
    assert ss[|pre|].name == MethodName(klassName, ToLower(methods[j].name));
  }

  /** A bound method's symbol sits at some position of the registration
      order. */
  lemma {:induction false} MethodBoundAt(klassName: string, t: TypeDesc, methods: seq<MethodDesc>, i: nat) returns (p: nat)
    requires i < |methods| && methods[i].isPublic && !methods[i].isSpecialName
    ensures p < |MethodsSymbols(klassName, t, methods)|
    ensures MethodsSymbols(klassName, t, methods)[p] == MethodSymbol(klassName, t, methods[i])
  {
    var init := methods[..|methods| - 1];
    var before := MethodsSymbols(klassName, t, init);
    var ss := MethodsSymbols(klassName, t, methods);
    if i == |methods| - 1 {
      assert ss == before + [MethodSymbol(klassName, t, methods[i])];
      p := |before|;
    } else {
      p := MethodBoundAt(klassName, t, init, i);
      assert before <= ss;
    }
  }

  /** The methods bound from a prefix of the list come first. */
  lemma {:induction false} MethodsPrefix(klassName: string, t: TypeDesc, methods: seq<MethodDesc>, n: nat)
    requires n <= |methods|
    ensures MethodsSymbols(klassName, t, methods[..n]) <= MethodsSymbols(klassName, t, methods)
    decreases |methods| - n
  {
    if n == |methods| {
      assert methods[..n] == methods;
    } else {
      MethodsPrefix(klassName, t, methods, n + 1);
      assert methods[..n + 1][..n] == methods[..n];
    }
  }

  /** Constructors whose parameter type names run together to the same
      string are bound under the same C name: (Ab, C) and (A, Bc) both
      give klassName_new_abc. */
  lemma ConstructorNamesCollide(klassName: string)
    ensures var ab := TypeDesc("App", "Ab", false, false, None);
      var c := TypeDesc("App", "C", false, false, None);
      var a := TypeDesc("App", "A", false, false, None);
      var bc := TypeDesc("App", "Bc", false, false, None);
      var first := ConstructorDesc(true, false, [ab, c]);
      var second := ConstructorDesc(true, false, [a, bc]);
      first != second
      && ConstructorSymbolName(klassName, first) == ConstructorSymbolName(klassName, second)
      && ConstructorSymbolName(klassName, first) == klassName + "_new_abc"
  {
    var ab := TypeDesc("App", "Ab", false, false, None);
    var c := TypeDesc("App", "C", false, false, None);
    var a := TypeDesc("App", "A", false, false, None);
    var bc := TypeDesc("App", "Bc", false, false, None);
    assert ToLower("Ab") == "ab" && ToLower("C") == "c" && ToLower("A") == "a" && ToLower("Bc") == "bc";
    assert [ab, c][..1] == [ab] && [a, bc][..1] == [a];
    assert [ab][..0] == [] && [a][..0] == [];
    assert ParameterTypeNames([ab]) == "ab" && ParameterTypeNames([a]) == "a";
    assert ParameterTypeNames([ab, c]) == "ab" + "c";
    assert ParameterTypeNames([a, bc]) == "a" + "bc";
    assert "ab" + "c" == "abc" == "a" + "bc";
  }

  /** A class named Gc (in any case) with a public method Free binds a
      second gc_free, beside the one the Binder constructor registered. */
  lemma GCFreeShadowed(c: ClassDesc, m: MethodDesc)
    requires ToLower(c.typeDesc.name) == "gc"
    requires m in c.methods && m.isPublic && !m.isSpecialName && ToLower(m.name) == "free"
    requires ClassBindings(c).outcome == Completed
    ensures exists s :: s in ClassBindings(c).symbols && s.name == "gc_free"
  {
    var klassName := ToLower(c.typeDesc.name);
    var t := c.typeDesc;
    MethodsSymbolsIff(klassName, t, c.methods);
    var s := MethodSymbol(klassName, t, m);
    var methods := MethodsSymbols(klassName, t, c.methods);
    assert s in methods;
    assert s.name == "gc" + "_" + "free";
    var props := PropertiesBindings(klassName, t, c.properties).symbols;
    var fields := FieldsSymbols(klassName, t, c.fields);
    var ctors := ConstructorsSymbols(klassName, t, c.constructors);
    assert ClassBindings(c).symbols == props + fields + methods + ctors;
    assert s in props + fields + methods + ctors;
    GCFreeName();
    assert s in ClassBindings(c).symbols && s.name == "gc_free";
  }

  lemma GCFreeName()
    ensures "gc" + "_" + "free" == "gc_free"
  {
    var n := "gc" + "_" + "free";
    assert n[0] == 'g' && n[1] == 'c' && n[2] == '_' && n[3] == 'f' && n[4] == 'r' && n[5] == 'e' && n[6] == 'e';
  }

  /** Every property symbol is named after the class. */
  lemma {:induction false} PropertiesPrefixed(klassName: string, t: TypeDesc, props: seq<PropertyDesc>)
    ensures forall s :: s in PropertiesBindings(klassName, t, props).symbols ==> HasPrefix(s.name, klassName + "_")
  {
    if props != [] {
      var init := props[..|props| - 1];
      var last := props[|props| - 1];
      PropertiesPrefixed(klassName, t, init);
      PropertyPrefixed(klassName, t, last);
      var before := PropertiesBindings(klassName, t, init);
      if before.outcome != NullReference {
        var here := PropertyBindings(klassName, t, last).symbols;
        assert PropertiesBindings(klassName, t, props).symbols == before.symbols + here;
        assert forall s :: s in before.symbols + here <==> s in before.symbols || s in here;
      }
    }
  }

  /** The symbols of one property are named after the class. */
  lemma PropertyPrefixed(klassName: string, t: TypeDesc, p: PropertyDesc)
    ensures forall s :: s in PropertyBindings(klassName, t, p).symbols ==> HasPrefix(s.name, klassName + "_")
  {
    NamesPrefixed(klassName, ToLower(p.name), ConstructorDesc(true, true, []));
  }

  /** Every symbol BindClass registers is named after the class: the
      lower-cased class name, an underscore, then the member part. */
  lemma ClassSymbolsPrefixed(c: ClassDesc)
    ensures forall s :: s in ClassBindings(c).symbols ==> HasPrefix(s.name, ToLower(c.typeDesc.name) + "_")
  {
    var klassName := ToLower(c.typeDesc.name);
    var t := c.typeDesc;
    PropertiesPrefixed(klassName, t, c.properties);
    FieldsSymbolsIff(klassName, t, c.fields);
    MethodsSymbolsIff(klassName, t, c.methods);
    ConstructorsSymbolsIff(klassName, t, c.constructors);
    forall s | s in ClassBindings(c).symbols
      ensures HasPrefix(s.name, klassName + "_")
    {
      if s !in PropertiesBindings(klassName, t, c.properties).symbols {
        if s in FieldsSymbols(klassName, t, c.fields) {
          var f :| f in c.fields && f.isPublic && (s == FieldGetterSymbol(klassName, t, f) || s == FieldSetterSymbol(klassName, t, f));
          NamesPrefixed(klassName, ToLower(f.name), ConstructorDesc(true, true, []));
        } else if s in MethodsSymbols(klassName, t, c.methods) {
          var m :| m in c.methods && m.isPublic && !m.isSpecialName && s == MethodSymbol(klassName, t, m);
          NamesPrefixed(klassName, ToLower(m.name), ConstructorDesc(true, true, []));
        } else {
          var k :| k in c.constructors && k.isPublic && s == ConstructorSymbol(klassName, t, k);
          NamesPrefixed(klassName, "", k);
        }
      }
    }
  }
}
