/** The host types and members the binder reads through reflection, and the
    marshalling policy that decides which of them cross the native boundary
    by value. */
module ClrTypes {
  import opened Prelude

  /** A host type: its namespace (Type.Namespace) and simple name (Type.Name),
      whether it is a value type or an enum, and its element type
      (Type.GetElementType(), null unless the type is an array, by-ref or
      unmanaged address type). Two descriptors are the same type exactly when
      they are equal, so a user type that shares a simple name with a system
      type, such as Geometry.Int32, is a different type. Assemblies are not
      modelled: one full name names one type. */
  datatype TypeDesc = TypeDesc(namespace: string, name: string, isValueType: bool, isEnum: bool, elementType: Option<TypeDesc>)

  const Void := TypeDesc("System", "Void", true, false, None)
  const IntPtr := TypeDesc("System", "IntPtr", true, false, None)
  const Byte := TypeDesc("System", "Byte", true, false, None)
  const Int16 := TypeDesc("System", "Int16", true, false, None)
  const UInt16 := TypeDesc("System", "UInt16", true, false, None)
  const Int32 := TypeDesc("System", "Int32", true, false, None)
  const UInt32 := TypeDesc("System", "UInt32", true, false, None)
  const Char := TypeDesc("System", "Char", true, false, None)
  const String := TypeDesc("System", "String", false, false, None)
  const StringBuilder := TypeDesc("System.Text", "StringBuilder", false, false, None)
  const Single := TypeDesc("System", "Single", true, false, None)
  const Double := TypeDesc("System", "Double", true, false, None)

  /** System.Runtime.InteropServices.GCHandle, the type of the locals the
      marshalling helpers declare. */
  const GCHandle := TypeDesc("System.Runtime.InteropServices", "GCHandle", true, false, None)

  /** The types passed across the boundary directly; anything else travels
      as an IntPtr that names a GCHandle. */
  const SimpleTypes: seq<TypeDesc> :=
    [Void, IntPtr, Byte, Int16, UInt16, Int32, UInt32, Char, String, StringBuilder, Single, Double]

  /** Binder.IsMarshallableType. */
  predicate IsMarshallable(t: TypeDesc)
  {
    (t.elementType.Some? && t.elementType.value in SimpleTypes) || t in SimpleTypes || t.isEnum
  }

  /** The type a thunk uses at the boundary in place of `t`. */
  function BoundaryType(t: TypeDesc): (r: TypeDesc)
    ensures IsMarshallable(r)
    ensures r == t <==> IsMarshallable(t)
    ensures r != t ==> r == IntPtr
  {
    if IsMarshallable(t) then t else IntPtr
  }

  /** The direct types: each allow-listed type, an array of one, and any enum
      keeps its own type at the boundary; a type outside these three cases is
      replaced by IntPtr. */
  lemma MarshallableCases(t: TypeDesc)
    ensures t in SimpleTypes ==> BoundaryType(t) == t
    ensures t.isEnum ==> BoundaryType(t) == t
    ensures t.elementType.Some? && t.elementType.value in SimpleTypes ==> BoundaryType(t) == t
    ensures t !in SimpleTypes && !t.isEnum && (t.elementType.None? || t.elementType.value !in SimpleTypes)
            ==> BoundaryType(t) == IntPtr
  {
  }

  /** The allow-list compares types, not simple names: a type declared
      outside System and System.Text that is neither an enum nor an array
      crosses as an IntPtr handle, even when it is called Int32 or String. */
  lemma ForeignNamespaceWrapped(t: TypeDesc)
    requires t.namespace != "System" && t.namespace != "System.Text"
    requires !t.isEnum && t.elementType.None?
    ensures BoundaryType(t) == IntPtr
  {
  }

  /** A reflected accessor method (the result of GetGetMethod/GetSetMethod
      when it is not null). */
  datatype Accessor = Accessor(isPublic: bool, isStatic: bool)

  /** A property; a missing accessor is None, as GetGetMethod() returns null. */
  datatype PropertyDesc = PropertyDesc(name: string, propertyType: TypeDesc, getter: Option<Accessor>, setter: Option<Accessor>)

  datatype FieldDesc = FieldDesc(name: string, fieldType: TypeDesc, isPublic: bool, isStatic: bool)

  datatype MethodDesc = MethodDesc(
    name: string, isPublic: bool, isStatic: bool, isSpecialName: bool,
    parameterTypes: seq<TypeDesc>, returnType: TypeDesc)

  datatype ConstructorDesc = ConstructorDesc(isPublic: bool, isStatic: bool, parameterTypes: seq<TypeDesc>)

  /** A bound class: its type and the member lists reflection enumerates, in
      the order GetProperties, GetFields, GetMethods and GetConstructors
      return them. */
  datatype ClassDesc = ClassDesc(
    typeDesc: TypeDesc,
    properties: seq<PropertyDesc>,
    fields: seq<FieldDesc>,
    methods: seq<MethodDesc>,
    constructors: seq<ConstructorDesc>)
}
