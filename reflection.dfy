/**
 * The runtime metadata the toolkit inspects: types as opaque tokens, their members, their
 * attributes, and the relation Type.IsAssignableFrom, which is given rather than computed.
 */
module Reflection {
  import opened Wrappers
  import opened Linq

  /**
   * The attribute classes the modelled code asks for, the operator attributes of the
   * Contracts namespace with their abstract bases, and attribute classes declared elsewhere,
   * each with its base attribute class (None for one deriving directly from System.Attribute).
   */
  datatype AttributeType =
    | ExplicitConversionAttribute
    | ImplicitConversionAttribute        // TinyReflectiveToolkit.Contracts.ImplicitConversionAttribute
    | RootImplicitConversionAttribute    // TinyReflectiveToolkit.ImplicitConversionAttribute
    | SpecialConversionAttribute
    | SpecialOperatorAttribute
    | ExposeOperatorAttribute            // abstract
    | ExposeBinaryOperatorAttribute      // abstract, derives from ExposeOperatorAttribute
    | AdditionAttribute                  // the sealed binary operator attributes
    | InequalityAttribute
    | LessThanAttribute
    | LessThanOrEqualAttribute
    | MultiplicationAttribute
    | CastAttribute                      // sealed, derives from ExposeOperatorAttribute
    | StaticAttribute
    | ExtensionAttribute                 // System.Runtime.CompilerServices.ExtensionAttribute
    | ObsoleteAttribute
    | UserAttribute(id: nat, base: Option<AttributeType>)

  /**
   * An attribute of class actual is an instance of class requested: the two are the same class
   * or requested is among actual's base classes. A sealed base cannot be derived from, so such
   * a base is not followed.
   */
  predicate IsA(actual: AttributeType, requested: AttributeType)
  {
    actual == requested ||
    match actual
    case AdditionAttribute | InequalityAttribute | LessThanAttribute | LessThanOrEqualAttribute | MultiplicationAttribute =>
      requested == ExposeBinaryOperatorAttribute || requested == ExposeOperatorAttribute
    case ExposeBinaryOperatorAttribute | CastAttribute => requested == ExposeOperatorAttribute
    case UserAttribute(_, base) => base.Some? && !IsSealedAttribute(base.value) && IsA(base.value, requested)
    case _ => false
  }

  /** A class no other attribute class derives from. */
  predicate IsSealedAttribute(a: AttributeType)
  {
    !a.ExposeOperatorAttribute? && !a.ExposeBinaryOperatorAttribute? && !a.UserAttribute?
  }

  /** A runtime type token. Only identity matters, except for generic parameters and their constraints. */
  datatype ClrType =
    | ObjectType | StringType | Int32Type | ByteType | CharType | SingleType | DoubleType | BooleanType | VoidType
    | Named(id: nat)
    | GenericParameter(position: nat, constraints: seq<ClrType>)
    | AttributeClass(attributeType: AttributeType)    // typeof(SomeAttribute)
    | Dynamic(serial: nat)                          // a proxy type emitted at run time

  /** An attribute instance: its class and, for SpecialOperatorAttribute, the marker type it carries. */
  datatype Attribute = Attribute(attributeType: AttributeType, typeArgument: Option<ClrType>)

  /**
   * A MemberInfo. `declaringType` is its DeclaringType, so members declared by different types
   * differ even when their signatures agree, as MemberInfo equality does; `attributes` are the
   * attributes declared on the member itself (GetCustomAttributes(_, false)).
   */
  datatype Member =
    | MethodMember(declaringType: ClrType, name: string, isStatic: bool, isPublic: bool, attributes: seq<Attribute>,
                   parameters: seq<ClrType>, returnType: ClrType, declaringTypeIsSealed: bool)
    | PropertyMember(declaringType: ClrType, name: string, isStatic: bool, isPublic: bool, attributes: seq<Attribute>,
                     propertyType: ClrType)
    | OtherMember(declaringType: ClrType, name: string, isStatic: bool, isPublic: bool, attributes: seq<Attribute>)

  /** A MethodInfo. */
  type Method = m: Member | m.MethodMember? witness MethodMember(ObjectType, "", false, false, [], [], VoidType, false)

  /** A PropertyInfo. */
  type Property = m: Member | m.PropertyMember? witness PropertyMember(ObjectType, "", false, false, [], VoidType)

  /**
   * What reflection reports about a type: its flags, its custom attributes, all its members
   * (public and non-public, instance and static) in the order GetMembers lists them, and the
   * interfaces it implements or extends (GetInterfaces).
   */
  datatype TypeDesc = TypeDesc(token: ClrType, isInterface: bool, isPublic: bool, isSealed: bool,
                               attributes: seq<Attribute>, members: seq<Member>, interfaces: seq<TypeDesc>)

  /** The Instance, Static, Public and NonPublic bits of System.Reflection.BindingFlags. */
  datatype BindingFlags = BindingFlags(instance: bool, includeStatic: bool, public: bool, nonPublic: bool)

  /** The flags of the parameterless GetMembers() and GetMethods(). */
  const DefaultLookup := BindingFlags(true, true, true, false)

  /** Static | Instance | Public | NonPublic, the flags GetGenericMethods searches with. */
  const GetMethodFlags := BindingFlags(true, true, true, true)

  predicate Selects(flags: BindingFlags, m: Member)
  {
    (if m.isStatic then flags.includeStatic else flags.instance) &&
    (if m.isPublic then flags.public else flags.nonPublic)
  }

  /** Type.GetMembers(flags). */
  function GetMembers(t: TypeDesc, flags: BindingFlags): seq<Member>
  {
    Filter(t.members, m => Selects(flags, m))
  }

  /** OfType<MethodInfo>(). */
  function MethodsOf(ms: seq<Member>): (r: seq<Method>)
  {
    var kept := Filter(ms, (m: Member) => m.MethodMember?);
    assert forall i :: 0 <= i < |kept| ==> kept[i] in kept;
    kept
  }

  /** OfType<PropertyInfo>(). */
  function PropertiesOf(ms: seq<Member>): (r: seq<Property>)
  {
    var kept := Filter(ms, (m: Member) => m.PropertyMember?);
    assert forall i :: 0 <= i < |kept| ==> kept[i] in kept;
    kept
  }

  /** Type.GetMethods(flags). */
  function GetMethods(t: TypeDesc, flags: BindingFlags): seq<Method>
  {
    MethodsOf(GetMembers(t, flags))
  }

  /** Type.GetMethods(): the public instance and static methods. */
  function PublicMethods(t: TypeDesc): seq<Method>
  {
    GetMethods(t, DefaultLookup)
  }

  lemma PublicMethodsAre(t: TypeDesc)
    ensures forall m :: m in PublicMethods(t) <==> m in t.members && m.MethodMember? && m.isPublic
  {
  }

  /** The Where predicate m => m.ReturnType == t. */
  function ReturnsExactly(t: ClrType): (f: Method -> bool)
    ensures forall m :: f(m) == (m.returnType == t)
  {
    (m: Method) => m.returnType == t
  }

  /** The Where predicate m => m.Name == name. */
  function NamedAs(name: string): (f: Method -> bool)
    ensures forall m :: f(m) == (m.name == name)
  {
    (m: Method) => m.name == name
  }

  /** Type.IsAssignableFrom as a relation (target, source). */
  type Assignability = (ClrType, ClrType) -> bool

  /** String and the primitive value types are assignable only from themselves. */
  predicate IsSealedBuiltin(t: ClrType)
  {
    t.StringType? || t.Int32Type? || t.ByteType? || t.CharType? || t.SingleType? || t.DoubleType? || t.BooleanType?
  }

  /**
   * The facts of the CLR's IsAssignableFrom that the fallback table depends on: it is
   * reflexive, System.Object accepts every type, and a built-in sealed type accepts only
   * itself (IsAssignableFrom knows no numeric widening).
   */
  ghost predicate PrimitiveRules(assignable: Assignability)
  {
    && (forall t :: assignable(t, t))
    && (forall t :: assignable(ObjectType, t))
    && (forall p, s :: IsSealedBuiltin(p) ==> (assignable(p, s) <==> s == p))
  }

  /** MemberInfo.GetCustomAttributes(typeof(T), false).Any(): some declared attribute is a T. */
  predicate HasAttribute(attributes: seq<Attribute>, attributeType: AttributeType)
  {
    exists i :: 0 <= i < |attributes| && IsA(attributes[i].attributeType, attributeType)
  }

  /**
   * MemberInfo.GetCustomAttributes(typeof(T), false).Cast<T>(), which SelectAttribute returns:
   * the declared attributes that are instances of T, subclasses included, in order.
   */
  function AttributesOfType(attributes: seq<Attribute>, attributeType: AttributeType): (r: seq<Attribute>)
    ensures forall x :: x in r <==> x in attributes && IsA(x.attributeType, attributeType)
    ensures |r| > 0 <==> HasAttribute(attributes, attributeType)
  {
    var r := Filter(attributes, (a: Attribute) => IsA(a.attributeType, attributeType));
    assert HasAttribute(attributes, attributeType) ==> r != [] by {
      if HasAttribute(attributes, attributeType) {
        var i :| 0 <= i < |attributes| && IsA(attributes[i].attributeType, attributeType);
        assert attributes[i] in r;
      }
    }
    assert r != [] ==> HasAttribute(attributes, attributeType) by {
      if r != [] {
        assert r[0] in attributes;
      }
    }
    r
  }

  /** An attribute class is an instance of itself and of each of its base classes. */
  lemma IsAReflexiveTransitive(a: AttributeType, b: AttributeType, c: AttributeType)
    ensures IsA(a, a)
    ensures IsA(a, b) && IsA(b, c) ==> IsA(a, c)
  {
    if IsA(a, b) && IsA(b, c) && a != b && a.UserAttribute? {
      IsAReflexiveTransitive(a.base.value, b, c);
    }
  }

  /** For a sealed class, GetCustomAttributes matches exactly that class. */
  lemma SealedIsExact(attributes: seq<Attribute>, a: AttributeType)
    requires IsSealedAttribute(a)
    ensures HasAttribute(attributes, a) <==> exists i :: 0 <= i < |attributes| && attributes[i].attributeType == a
  {
    forall x | IsA(x, a) ensures x == a {
      SealedHasNoSubclass(x, a);
    }
  }

  lemma SealedHasNoSubclass(x: AttributeType, a: AttributeType)
    requires IsSealedAttribute(a) && IsA(x, a)
    ensures x == a
  {
    if x != a && x.UserAttribute? {
      SealedHasNoSubclass(x.base.value, a);
    }
  }

  /** An Addition attribute is found when asking for either of its abstract bases. */
  lemma AdditionIsAnExposedOperator()
    ensures IsA(AdditionAttribute, ExposeBinaryOperatorAttribute) && IsA(AdditionAttribute, ExposeOperatorAttribute)
    ensures !IsA(ExposeOperatorAttribute, AdditionAttribute)
  {
  }
}
