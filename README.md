# TinyReflectiveToolkit, modelled in Dafny

TinyReflectiveToolkit is a C# library of reflection helpers. It also has a "runtime contracts" facility: an object whose type never declared an interface can still be used as that interface, provided its type structurally has the interface's members. This project models the deciding logic of the library and proves what that logic promises.

**Reflection vocabulary** (`Reflection`, `Wrappers`, `Linq`):
- Types are tokens with a description: flags, attributes, members and interfaces.
- `Type.IsAssignableFrom` is a relation given as a parameter. The only facts assumed about it are the ones the special-operations table depends on (`PrimitiveRules`).
- A member carries its declaring type, so two members declared by different types are different MemberInfos even when their signatures agree, as in .NET.
- A null reference is `None`. A thrown exception is `Err(...)`.
- The LINQ operators the code uses are written out as functions with their own contracts: `Where`, `Select`, `FirstOrDefault`, `SingleOrDefault`, `Single`, `Distinct`, `Union` and a sorting `OrderBy`.

**Type extensions:**
- The `CanBeCastTo` variance check.
- `GetOperators` and the explicit and implicit conversion operators.
- `IsExtensionMethod` and `GetTypeOfExtensionMethod`.
- `GetGenericMethods` and `GetGenericMethod`, with the parameter-matching predicate (an equivalence relation when no substitution is allowed).
- `GetInheritedInterfaceMembers` and its method and property forms.
- The `WithAttribute` filters, with and without a predicate on the attribute.

**Special operations** (`SpecialArithmetic`, `SpecialOps`, `LegacySpecialOps`):
- The fallback table of conversions and additions the proxies use for primitive types, and the two lookups over it: `GetSpecialConversion` (a `SingleOrDefault`) and `GetSpecialOperator` (a `FirstOrDefault`, with the two-predicate `Where` overload for the `reverse` flag).
- The integer bodies of the table entries are modelled exactly:
  - 32-bit wrap-around of `int + int`;
  - truncating narrowing casts to `char` and `byte`;
  - string concatenation.
- `EqualInt` is modelled as a predicate.
- The older table in `Contracts/SpecialOperations.cs` has its own module.

**Runtime contracts:**
- `ProxyInfos` models `ProxyInfo` and its `IsValid` test.
- `ContractMatching` models how both newer checkers build a `ProxyInfo`:
  - the required regular methods and conversions of the contract;
  - the methods found through `GetMethod`;
  - the conversion operators found by return type and name.
- `ContractCache` models the state both newer checkers consult:
  - the guards, which raise `NotSupportedException`;
  - the proxy-type cache;
  - the set of known-satisfied pairs.

  It states the outcome of a check as a function of that state.
- Three classes model the stateful checkers:
  - `ContractProviders.ContractProvider` is the instance-based provider;
  - `RuntimeContracts.RuntimeContractExtensions` is the static extension class in `Contracts/`;
  - `LegacyContracts.LegacyContractExtensions` is the older static class, which decides through `Single` lookups while it builds stubs.

  Their fields are the dictionaries and sets the source mutates. A serial stands for the `Guid` that names each emitted proxy type.
- The main properties:
  - a ContractProvider check answers "satisfied" exactly when the type structurally satisfies the contract, whatever the caches hold;
  - the RuntimeContractExtensions check, as written, answers "satisfied" exactly when the type has every regular method of the contract, whatever its conversions (see Findings);
  - ToContract and ConvertToContractInstance return an adapter exactly for pairs that structurally satisfy the contract, and its proxy type is cached under the pair. A pair that RuntimeContractExtensions accepts without its conversions ends in a NullReferenceException while the conversion stubs are built;
  - cached proxy types are distinct.

**Assembly loader** (`AssemblyLoading`):
- `AssemblyLoader` is a class with the `_loaded` and `_assemblies` lists and an event log.
- The recursive depth-first load is proved to:
  - load exactly the depth-first order `DfsFrom`, a reference definition given as functions;
  - start at the root;
  - load every name at most once;
  - leave the loaded set closed under references;
  - log an `AssemblyLoading`/`AssemblyLoaded` pair per assembly, followed by one `AllAssembliesLoaded`.
- The loader carries a ghost `universe`, a finite set of names closed under references that holds the root. It exists only so that the recursion of `Visit` provably terminates. The source has no such bound, and it terminates only because a finite program references finitely many assemblies.

## Model

| member | source | states |
|---|---|---|
| VarianceChecks.CanBeCastTo | TinyReflectiveToolkit/Variance.cs:35-42 | Invariant holds iff the types are equal, Covariant iff the target is assignable from the source, Contravariant iff the source is assignable from the target |
| VarianceChecks.ContravariantIsSwappedCovariant | TinyReflectiveToolkit/Variance.cs:41 | a contravariant cast is the covariant cast with the two types swapped |
| VarianceChecks.InvariantImpliesBoth | TinyReflectiveToolkit/Variance.cs:37-41 | for a reflexive assignability, an invariant cast is also allowed covariantly and contravariantly |
| VarianceChecks.IntAndObjectCasts | TinyReflectiveToolkitTests/TypeExtensionsTests.cs:151-167 | int to int is invariant; int to object is covariant but not invariant; object to int is contravariant but not covariant |
| Operators.GetOperators | TinyReflectiveToolkit/GetOperators.cs:24-29 | an operator is exactly a public static method of the type whose name starts with "op_" |
| Operators.OperatorsAmong | TinyReflectiveToolkit/GetOperators.cs:26-28 | the two Where filters; Operators.OperatorsAmongInOrder states that they are one filter by the conjunction, in order |
| Operators.IsOperator | TinyReflectiveToolkit/GetOperators.cs:26-28 | static and named with the "op_" prefix; Operators.OperatorsAmongInOrder uses it as the single filter |
| Operators.OperatorsAmongInOrder | TinyReflectiveToolkit/GetOperators.cs:26-28 | the two successive Where filters are one filter by the conjunction, in the original order |
| Operators.GetOperatorsInOrder | TinyReflectiveToolkit/GetOperators.cs:26-28 | GetOperators keeps the order of GetMethods() |
| Operators.OperatorsArePublicStatic | TinyReflectiveToolkit/GetOperators.cs:26-28 | every operator is a member of the type, public, static and prefixed "op_" |
| Operators.GetExplicitOperators | TinyReflectiveToolkit/GetOperators.cs:36-40 | exactly the operators named op_Explicit, in their order among the operators |
| Operators.GetExplicitOperatorsReturning | TinyReflectiveToolkit/GetOperators.cs:48-52 | exactly the explicit operators with the given return type, in their order among the explicit operators |
| Operators.GetImplicitOperators | TinyReflectiveToolkit/GetOperators.cs:59-63 | exactly the operators named op_Implicit, in their order among the operators |
| Operators.GetImplicitOperatorsReturning | TinyReflectiveToolkit/GetOperators.cs:71-75 | exactly the implicit operators with the given return type, in their order among the implicit operators |
| Operators.ExplicitAndImplicitDisjoint | TinyReflectiveToolkit/GetOperators.cs:38-39 | no method is both an explicit and an implicit operator |
| Operators.ConversionNamesHavePrefix | TinyReflectiveToolkit/GetOperators.cs:27-39 | op_Explicit and op_Implicit pass the "op_" filter, so the conversion filters see every conversion operator |
| Operators.ExplicitOperatorsAreNamedStatics | TinyReflectiveToolkit/GetOperators.cs:36-40 | the explicit operators are exactly the public static methods of the type named op_Explicit |
| Operators.ImplicitOperatorsAreNamedStatics | TinyReflectiveToolkit/GetOperators.cs:59-63 | the implicit operators are exactly the public static methods of the type named op_Implicit |
| ExtensionMethods.ExtensionMethodChecks | TinyReflectiveToolkit/IsExtensionMethod.cs:39-50 | a method is an extension method iff it is static, is declared in a sealed type, carries ExtensionAttribute and has a first parameter; each missing condition alone makes it not one |
| ExtensionMethods.IsExtensionMethod | TinyReflectiveToolkit/IsExtensionMethod.cs:39-50 | static, declared in a sealed type, carrying ExtensionAttribute, with a first parameter of the given type; ExtensionMethods.ExtensionMethodChecks states each condition is needed |
| ExtensionMethods.ExtensionMethodOnType | TinyReflectiveToolkit/IsExtensionMethod.cs:49-50 | an extension method of a given type is an extension method whose first parameter is that type |
| ExtensionMethods.GetTypeOfExtensionMethod | TinyReflectiveToolkit/IsExtensionMethod.cs:63-67 | ArgumentException exactly for a non-extension method; otherwise a type the method extends |
| ExtensionMethods.ExtendedTypeIsUnique | TinyReflectiveToolkit/IsExtensionMethod.cs:63-67 | the method extends t iff GetTypeOfExtensionMethod returns t |
| GenericMethods.MixedKindsNeverMatch | TinyReflectiveToolkit/GetGenericMethods.cs:89 | a generic parameter never matches a non-generic type, in either direction |
| GenericMethods.ParamInfoPredicate | TinyReflectiveToolkit/GetGenericMethods.cs:87-97 | the parameter-matching predicate; GenericMethods.ParamInfoReflexive, GenericMethods.ParamInfoSymmetric and GenericMethods.ParamInfoTransitive state that it is an equivalence without substitution |
| GenericMethods.ParamInfoReflexive | TinyReflectiveToolkit/GetGenericMethods.cs:87-97 | without substitution every type matches itself, including the nested constraints |
| GenericMethods.ParamInfoSymmetric | TinyReflectiveToolkit/GetGenericMethods.cs:87-97 | without substitution the match is symmetric, including the nested constraints |
| GenericMethods.ParamInfoTransitive | TinyReflectiveToolkit/GetGenericMethods.cs:87-97 | without substitution the match is transitive, including the nested constraints |
| GenericMethods.ExactImpliesSubstitutable | TinyReflectiveToolkit/GetGenericMethods.cs:90-94 | for a reflexive assignability, an exact match is also a match with substitution allowed |
| GenericMethods.GetGenericMethods | TinyReflectiveToolkit/GetGenericMethods.cs:32-48 | ArgumentNullException for a null type, then a null name, then null parameters; otherwise exactly the methods of every binding kind with that name and arity whose parameters match pairwise |
| GenericMethods.FiltersCompose | TinyReflectiveToolkit/GetGenericMethods.cs:39-46 | the name, arity and parameter filters are one filter by the conjunction, in the original order |
| GenericMethods.IsMatchingOverload | TinyReflectiveToolkit/GetGenericMethods.cs:39-46 | the name, arity and parameter conditions together; GenericMethods.GetGenericMethods states that the result is exactly the methods meeting it |
| GenericMethods.MatchingOverloads | TinyReflectiveToolkit/GetGenericMethods.cs:39-46 | the methods meeting the whole condition, in order; GenericMethods.GetGenericMethodsInOrder states that the result is this list |
| GenericMethods.GetGenericMethodsInOrder | TinyReflectiveToolkit/GetGenericMethods.cs:38-47 | the result is the matching overloads in GetMethods order |
| GenericMethods.GetGenericMethodsExact | TinyReflectiveToolkit/GetGenericMethods.cs:57-60 | the overload without allowSubstitution: the same errors, and exactly the overloads matching without substitution |
| GenericMethods.GetGenericMethod | TinyReflectiveToolkit/GetGenericMethods.cs:82-85 | the errors of GetGenericMethods; otherwise null iff nothing matches, InvalidOperationException iff several match, the only match when one does |
| GenericMethods.GetGenericMethodExact | TinyReflectiveToolkit/GetGenericMethods.cs:69-72 | the same, searching without substitution |
| InheritedMembers.Inherited | TinyReflectiveToolkit/GetInheritedInterfaceMembers.cs:22-26 | no duplicates, and a member is present iff it is the type's own or one inherited through an interface |
| InheritedMembers.CurrentMembers | TinyReflectiveToolkit/GetInheritedInterfaceMembers.cs:22-24 | GetMembers(flags), or GetMembers() without flags; InheritedMembers.NoFlagsIsDefaultLookup states that the two agree |
| InheritedMembers.InterfaceMembersFrom | TinyReflectiveToolkit/GetInheritedInterfaceMembers.cs:23-25 | the members of the interfaces from index k on, each flattened; InheritedMembers.InterfaceMembersFromContents states its contents |
| InheritedMembers.GetInheritedInterfaceMembersImpl | TinyReflectiveToolkit/GetInheritedInterfaceMembers.cs:18-27 | ArgumentNullException exactly for a null type; otherwise no duplicates, and exactly the members declared in the type or any interface it extends |
| InheritedMembers.GetInheritedInterfaceMembersWith | TinyReflectiveToolkit/GetInheritedInterfaceMembers.cs:35-38 | the same for explicit binding flags |
| InheritedMembers.GetInheritedInterfaceMembers | TinyReflectiveToolkit/GetInheritedInterfaceMembers.cs:45-48 | the overload without flags is the one with the default lookup flags |
| InheritedMembers.GetInheritedInterfaceMethods | TinyReflectiveToolkit/GetInheritedInterfaceMembers.cs:56-69 | ArgumentNullException exactly for a null type; otherwise the methods among the inherited members |
| InheritedMembers.GetInheritedInterfaceProperties | TinyReflectiveToolkit/GetInheritedInterfaceMembers.cs:77-90 | ArgumentNullException exactly for a null type; otherwise the properties among the inherited members |
| InheritedMembers.InterfaceMembersFromContents | TinyReflectiveToolkit/GetInheritedInterfaceMembers.cs:23-25 | the members gathered from the interfaces from index k on are exactly those inherited by one of them |
| InheritedMembers.InheritedContents | TinyReflectiveToolkit/GetInheritedInterfaceMembers.cs:18-27 | membership in the result iff the member is declared in the type or transitively in one of its interfaces |
| InheritedMembers.InheritedIsDeclared | TinyReflectiveToolkit/GetInheritedInterfaceMembers.cs:22-26 | the same for all members at once |
| InheritedMembers.InterfaceMembersIncluded | TinyReflectiveToolkit/GetInheritedInterfaceMembers.cs:23-26 | every member an extended interface inherits is inherited by the type |
| InheritedMembers.NoFlagsIsDefaultLookup | TinyReflectiveToolkit/GetInheritedInterfaceMembers.cs:22-24 | GetMembers() and GetMembers with the default flags give the same inherited members, at every depth |
| InheritedMembers.MethodsAndPropertiesContents | TinyReflectiveToolkit/GetInheritedInterfaceMembers.cs:58-89 | a method (property) is in the methods (properties) result iff it is declared in the type or one of its interfaces |
| InheritedMembers.SameSignatureDistinctInterfaces | TinyReflectiveToolkit/GetInheritedInterfaceMembers.cs:26 | for `interface IC : IA, IB` where IA and IB each declare `void M()`, the result is both methods, IA.M then IB.M |
| InheritedMembers.RepeatedInterfaceMemberOnce | TinyReflectiveToolkit/GetInheritedInterfaceMembers.cs:23-26 | for an interface that reaches IA and IB both directly and through IC, each of IA.M and IB.M appears once |
| WithAttributes.WithAttributeImpl | TinyReflectiveToolkit/WithAttribute.cs:63-68 | exactly the elements declaring an attribute of the class or of a subclass of it, in their original order |
| WithAttributes.WithAttribute | TinyReflectiveToolkit/WithAttribute.cs:36-42 | ArgumentNullException exactly for a null sequence; otherwise exactly the elements declaring an attribute of the class or a subclass, in their original order |
| WithAttributes.HasMatchingAttribute | TinyReflectiveToolkit/WithAttribute.cs:60 | an element with a matching attribute declares an attribute of the class or a subclass |
| WithAttributes.WithAttributeWhere | TinyReflectiveToolkit/WithAttribute.cs:52-61 | ArgumentNullException for a null sequence, then a null predicate; otherwise an order-preserving subsequence of the input holding an element iff some attribute of the class or a subclass declared on it passes the predicate |
| WithAttributes.MatchingAttributeIsAttribute | TinyReflectiveToolkit/WithAttribute.cs:60 | an attribute selected by the predicate is one of the element's attributes of the class |
| WithAttributes.SubclassAttributeIsKept | TinyReflectiveToolkit/WithAttribute.cs:67 | an element declaring an attribute of a subclass of the class is kept by the filter |
| WithAttributes.WhereIsOneFilter | TinyReflectiveToolkit/WithAttribute.cs:60 | the two-stage filter equals one filter by "has a matching attribute", in order |
| WithAttributes.ChainedWithAttribute | TinyReflectiveToolkitTests/TypeExtensionsTests.cs:101-112 | filtering for A and then for B keeps, in order, exactly the elements declaring both |
| WithAttributes.TypesWithAttribute | TinyReflectiveToolkit/WithAttribute.cs:76-80 | the Type overload: an error iff the sequence is null; otherwise exactly the types declaring the attribute |
| WithAttributes.TypesWithAttributeWhere | TinyReflectiveToolkit/WithAttribute.cs:89-94 | an error iff the sequence or the predicate is null; otherwise exactly the types with a matching attribute |
| WithAttributes.MethodsWithAttribute | TinyReflectiveToolkit/WithAttribute.cs:102-106 | the MethodInfo overload, as for types |
| WithAttributes.MethodsWithAttributeWhere | TinyReflectiveToolkit/WithAttribute.cs:115-120 | the MethodInfo overload with a predicate, as for types |
| WithAttributes.PropertiesWithAttribute | TinyReflectiveToolkit/WithAttribute.cs:128-132 | the PropertyInfo overload, as for types |
| WithAttributes.PropertiesWithAttributeWhere | TinyReflectiveToolkit/WithAttribute.cs:141-145 | the PropertyInfo overload with a predicate, as for types |
| Reflection.PublicMethodsAre | TinyReflectiveToolkit/GetOperators.cs:26 | GetMethods() yields exactly the public methods of the type |
| Reflection.GetMethods | TinyReflectiveToolkit/GetOperators.cs:26 | the methods among the members selected by the binding flags; its contents are stated by Reflection.PublicMethodsAre for the default flags |
| Reflection.PublicMethods | TinyReflectiveToolkit/GetOperators.cs:26 | Type.GetMethods(); Reflection.PublicMethodsAre states that it yields exactly the public methods |
| Reflection.IsA | TinyReflectiveToolkit/Contracts/ExposeBinaryOperatorAttribute.cs:15 | an attribute is an instance of its own class and of each class it derives from: the binary-operator attributes of ExposeBinaryOperatorAttribute and ExposeOperatorAttribute, CastAttribute and ExposeBinaryOperatorAttribute of ExposeOperatorAttribute; its properties are Reflection.IsAReflexiveTransitive and Reflection.SealedHasNoSubclass |
| Reflection.IsAReflexiveTransitive | TinyReflectiveToolkit/Contracts/ExposeBinaryOperatorAttribute.cs:15 | the instance-of relation on attribute classes is reflexive and transitive |
| Reflection.SealedHasNoSubclass | TinyReflectiveToolkit/Contracts/CastAttribute.cs:20 | only a sealed attribute class itself is an instance of it |
| Reflection.SealedIsExact | TinyReflectiveToolkit/Contracts/CastAttribute.cs:20 | for a sealed attribute class, having an attribute of the class is having one whose class is exactly it |
| Reflection.AdditionIsAnExposedOperator | TinyReflectiveToolkit/Contracts/AdditionAttribute.cs:29 | an Addition attribute is found when asking for ExposeBinaryOperatorAttribute or ExposeOperatorAttribute, and an ExposeOperator attribute is not an Addition attribute |
| Reflection.HasAttribute | TinyReflectiveToolkit/HasAttribute.cs:15 | GetCustomAttributes(typeof(T), false).Any(): some declared attribute is an instance of T; Reflection.AttributesOfType states that it holds iff that list is non-empty |
| Reflection.AttributesOfType | TinyReflectiveToolkit/SelectAttribute.cs:37 | exactly the declared attributes that are instances of the class, subclasses included, and non-empty iff the element has an attribute of the class |
| SpecialArithmetic.Wrap32 | TinyReflectiveToolkit/Contracts/SpecialOps/Operators.cs:65-70 | the 32-bit value congruent to the integer modulo 2^32, equal to it when it is in range |
| SpecialArithmetic.Wrap32Congruent | TinyReflectiveToolkit/Contracts/SpecialOps/Operators.cs:65-70 | congruent integers wrap to the same 32-bit value |
| SpecialArithmetic.AddByteByte | TinyReflectiveToolkit/Contracts/SpecialOps/Operators.cs:39-44 | byte + byte is the exact sum, as an int |
| SpecialArithmetic.AddCharChar | TinyReflectiveToolkit/Contracts/SpecialOps/Operators.cs:52-57 | char + char is the exact sum of the code units, as an int |
| SpecialArithmetic.AddIntInt | TinyReflectiveToolkit/Contracts/SpecialOps/Operators.cs:65-70 | int + int is congruent to the sum modulo 2^32 and exact when the sum fits |
| SpecialArithmetic.AddByteChar | TinyReflectiveToolkit/Contracts/SpecialOps/Operators.cs:104-109 | byte + char is the exact sum |
| SpecialArithmetic.AddCharByte | TinyReflectiveToolkit/Contracts/SpecialOps/Operators.cs:117-122 | char + byte is the exact sum |
| SpecialArithmetic.AddByteInt | TinyReflectiveToolkit/Contracts/SpecialOps/Operators.cs:130-135 | byte + int widens the byte and then adds with 32-bit wrap-around |
| SpecialArithmetic.AddIntByte | TinyReflectiveToolkit/Contracts/SpecialOps/Operators.cs:143-148 | int + byte widens the byte and then adds with 32-bit wrap-around |
| SpecialArithmetic.AddCharInt | TinyReflectiveToolkit/Contracts/SpecialOps/Operators.cs:208-213 | char + int widens the char and then adds with 32-bit wrap-around |
| SpecialArithmetic.AddIntChar | TinyReflectiveToolkit/Contracts/SpecialOps/Operators.cs:221-226 | int + char widens the char and then adds with 32-bit wrap-around |
| SpecialArithmetic.AddIntIntCommutes | TinyReflectiveToolkit/Contracts/SpecialOps/Operators.cs:65-70 | int addition commutes, wrap-around included |
| SpecialArithmetic.MirroredPairsAgree | TinyReflectiveToolkit/Contracts/SpecialOps/Operators.cs:104-148 | each mixed entry agrees with its mirrored entry |
| SpecialArithmetic.SmallSumsAreExact | TinyReflectiveToolkit/Contracts/SpecialOps/Operators.cs:39-57 | byte and char sums are exact and bounded (at most 510 and 131070) |
| SpecialArithmetic.AddIntIntOverflows | TinyReflectiveToolkit/Contracts/SpecialOps/Operators.cs:65-70 | int.MaxValue + 1 wraps to int.MinValue; 255 + int.MaxValue wraps to -2147483394 |
| SpecialArithmetic.ConcatObjectString | TinyReflectiveToolkit/Contracts/SpecialOps/Operators.cs:13-18 | the result is the string form of the first operand followed by the second |
| SpecialArithmetic.ConcatStringObject | TinyReflectiveToolkit/Contracts/SpecialOps/Operators.cs:26-31 | the result is the first string followed by the string form of the second operand |
| SpecialArithmetic.ConcatEntriesAgree | TinyReflectiveToolkit/Contracts/SpecialOps/Operators.cs:13-31 | both concatenation entries compute the same string; a null operand contributes the empty string |
| SpecialArithmetic.ToIntFromChar | TinyReflectiveToolkit/Contracts/SpecialOps/Conversions.cs:141-146 | char to int keeps the code unit's value |
| SpecialArithmetic.ToIntFromByte | TinyReflectiveToolkit/Contracts/SpecialOps/Conversions.cs:153-158 | byte to int keeps the value |
| SpecialArithmetic.ToCharFromInt | TinyReflectiveToolkit/Contracts/SpecialOps/Conversions.cs:189-194 | int to char keeps the value modulo 2^16 |
| SpecialArithmetic.ToCharFromByte | TinyReflectiveToolkit/Contracts/SpecialOps/Conversions.cs:201-206 | byte to char keeps the value |
| SpecialArithmetic.ToByteFromInt | TinyReflectiveToolkit/Contracts/SpecialOps/Conversions.cs:237-242 | int to byte keeps the value modulo 2^8 |
| SpecialArithmetic.ToByteFromChar | TinyReflectiveToolkit/Contracts/SpecialOps/Conversions.cs:249-254 | char to byte keeps the value modulo 2^8 |
| SpecialArithmetic.NarrowingInRangeIsExact | TinyReflectiveToolkit/Contracts/SpecialOps/Conversions.cs:189-242 | narrowing a value the target type can hold is exact |
| SpecialArithmetic.NarrowingNegative | TinyReflectiveToolkit/Contracts/SpecialOps/Conversions.cs:237-254 | -1 narrows to 255 and 0xFFFF, -256 to 0, and 0x1234 to 0x34 |
| SpecialArithmetic.ConversionRoundTrips | TinyReflectiveToolkit/Contracts/SpecialOps/Conversions.cs:141-254 | widening then narrowing back gives the original byte or char |
| SpecialArithmetic.NarrowingComposes | TinyReflectiveToolkit/Contracts/SpecialOps/Conversions.cs:189-254 | int to char to byte is int to byte |
| SpecialOps.IdentityMarkerMethodInfo | TinyReflectiveToolkit/Contracts/SpecialOps/SpecialOperations.cs:27-30 | the Single lookup by name succeeds and yields the IdentityMarker method |
| SpecialOps.OnlyIdentityMarkerIsNamedSo | TinyReflectiveToolkit/Contracts/SpecialOps/SpecialOperations.cs:27-30 | exactly one method of the table is named IdentityMarker |
| SpecialOps.OtherWhere | TinyReflectiveToolkit/Contracts/SpecialOps/SpecialOperations.cs:69-73 | keeps exactly the elements satisfying either predicate |
| SpecialOps.OtherWhereInOrder | TinyReflectiveToolkit/Contracts/SpecialOps/SpecialOperations.cs:69-73 | the two-predicate Where is one Where by the disjunction |
| SpecialOps.ConversionCandidates | TinyReflectiveToolkit/Contracts/SpecialOps/SpecialOperations.cs:34-39 | exactly the tagged one-parameter methods from the source type to the target type |
| SpecialOps.IsConversionFor | TinyReflectiveToolkit/Contracts/SpecialOps/SpecialOperations.cs:35-38 | a SpecialConversion entry with one parameter of exactly the source type and a return type of exactly the target; SpecialOps.ConversionCandidates states that the filters select exactly these |
| SpecialOps.GetSpecialConversion | TinyReflectiveToolkit/Contracts/SpecialOps/SpecialOperations.cs:32-41 | SingleOrDefault over the table; SpecialOps.GetSpecialConversionNeverThrows and SpecialOps.ConversionFound state that it never throws and what it finds |
| SpecialOps.ConversionLookup | TinyReflectiveToolkit/Contracts/SpecialOps/SpecialOperations.cs:32-41 | InvalidOperationException iff several candidates; null iff no entry converts; otherwise an entry of the table that converts the source to the target |
| SpecialOps.ConversionEntriesShape | TinyReflectiveToolkit/Contracts/SpecialOps/Conversions.cs:21-254 | every conversion entry carries SpecialConversion and has one parameter |
| SpecialOps.OperatorEntriesShape | TinyReflectiveToolkit/Contracts/SpecialOps/Operators.cs:13-304 | every operator entry carries the Addition marker and has two parameters |
| SpecialOps.ToDoubleShape | TinyReflectiveToolkit/Contracts/SpecialOps/Conversions.cs:21-66 | the ToDouble block has distinct sources and returns double |
| SpecialOps.ToFloatShape | TinyReflectiveToolkit/Contracts/SpecialOps/Conversions.cs:69-114 | the ToFloat block has distinct sources and returns float |
| SpecialOps.ToIntShape | TinyReflectiveToolkit/Contracts/SpecialOps/Conversions.cs:117-162 | the ToInt block has distinct sources and returns int |
| SpecialOps.ToCharShape | TinyReflectiveToolkit/Contracts/SpecialOps/Conversions.cs:165-210 | the ToChar block has distinct sources and returns char |
| SpecialOps.ToByteShape | TinyReflectiveToolkit/Contracts/SpecialOps/Conversions.cs:213-254 | the ToByte block has distinct sources and returns byte |
| SpecialOps.ConversionKeysDistinct | TinyReflectiveToolkit/Contracts/SpecialOps/Conversions.cs:21-254 | no two conversion entries share a (source, target) pair |
| SpecialOps.OperatorsLackConversionTag | TinyReflectiveToolkit/Contracts/SpecialOps/Operators.cs:13-304 | no operator entry carries SpecialConversion |
| SpecialOps.ConversionsCarryConversionTag | TinyReflectiveToolkit/Contracts/SpecialOps/Conversions.cs:21-254 | every conversion entry carries SpecialConversion |
| SpecialOps.TaggedConversionsAreConversionEntries | TinyReflectiveToolkit/Contracts/SpecialOps/SpecialOperations.cs:34-35 | WithAttribute<SpecialConversion> over the table yields exactly the conversion entries, in order |
| SpecialOps.GetSpecialConversionNeverThrows | TinyReflectiveToolkit/Contracts/SpecialOps/SpecialOperations.cs:32-41 | on the shipped table the SingleOrDefault never throws |
| SpecialOps.LookupFinds | TinyReflectiveToolkit/Contracts/SpecialOps/SpecialOperations.cs:32-41 | over any table whose tagged part has distinct keys, an entry that converts the source to the target is the one found |
| SpecialOps.ConversionFound | TinyReflectiveToolkit/Contracts/SpecialOps/SpecialOperations.cs:32-41 | every conversion entry is found for its own source and target |
| SpecialOps.NoIdentityConversion | TinyReflectiveToolkit/Contracts/SpecialOps/SpecialOperations.cs:32-41 | no entry converts a type to itself |
| SpecialOps.ConversionsToInt | TinyReflectiveToolkit/Contracts/SpecialOps/Conversions.cs:141-158 | byte to int and char to int find the ToInt entries |
| SpecialOps.ConversionsToChar | TinyReflectiveToolkit/Contracts/SpecialOps/Conversions.cs:189-206 | int to char and byte to char find the ToChar entries |
| SpecialOps.ConversionsToByte | TinyReflectiveToolkit/Contracts/SpecialOps/Conversions.cs:237-254 | int to byte and char to byte find the ToByte entries |
| SpecialOps.ConversionIsAConversionEntry | TinyReflectiveToolkit/Contracts/SpecialOps/SpecialOperations.cs:32-41 | whatever the conversion lookup finds is a conversion entry with that source and target |
| SpecialOps.MatchingMarker | TinyReflectiveToolkit/Contracts/SpecialOps/SpecialOperations.cs:46 | the attribute predicate holds iff the method carries a SpecialOperator attribute with that marker type |
| SpecialOps.IsOperatorFor | TinyReflectiveToolkit/Contracts/SpecialOps/SpecialOperations.cs:45-54 | an entry tagged with the marker, with two parameters accepting the inputs, swapped when reversed, and a return type the output accepts; SpecialOps.QualifiesUnfolded states that the filters select exactly these |
| SpecialOps.GetSpecialOperator | TinyReflectiveToolkit/Contracts/SpecialOps/SpecialOperations.cs:43-57 | FirstOrDefault over the table; SpecialOps.OperatorLookupIsFirst and SpecialOps.LookupIsFindFirst state that it is the first qualifying entry |
| SpecialOps.QualifiesUnfolded | TinyReflectiveToolkit/Contracts/SpecialOps/SpecialOperations.cs:46-54 | the chain of Where filters is the single qualification predicate |
| SpecialOps.TaggedBinary | TinyReflectiveToolkit/Contracts/SpecialOps/SpecialOperations.cs:46-47 | the marker filter followed by the two-parameter filter is one filter, in order |
| SpecialOps.OperatorLookup | TinyReflectiveToolkit/Contracts/SpecialOps/SpecialOperations.cs:43-57 | null iff no method qualifies, where qualifying includes the output being assignable from the method's return type; otherwise a qualifying method of the table |
| SpecialOps.OperatorLookupIsFirst | TinyReflectiveToolkit/Contracts/SpecialOps/SpecialOperations.cs:56 | FirstOrDefault of the matches is the first qualifying method of the table |
| SpecialOps.LookupIsFindFirst | TinyReflectiveToolkit/Contracts/SpecialOps/SpecialOperations.cs:56 | the operator lookup is the first qualifying method in table order |
| SpecialOps.FoundInPrefix | TinyReflectiveToolkit/Contracts/SpecialOps/SpecialOperations.cs:56 | the first qualifying method of a prefix is found, whatever follows |
| SpecialOps.FoundAmongLeading | TinyReflectiveToolkit/Contracts/SpecialOps/SpecialOperations.cs:43-57 | the first qualifying entry among the leading operators is the one found |
| SpecialOps.OperatorCarriesAddition | TinyReflectiveToolkit/Contracts/SpecialOps/Operators.cs:13-304 | each operator entry carries the addition marker |
| SpecialOps.IntPlusInt | TinyReflectiveToolkit/Contracts/SpecialOps/Operators.cs:65-70 | int + int giving int finds the Add(int, int) entry |
| SpecialOps.StringPlusInt | TinyReflectiveToolkit/Contracts/SpecialOps/SpecialOperations.cs:48-53 | string + int giving string finds the (string, object) concatenation |
| SpecialOps.IntPlusString | TinyReflectiveToolkit/Contracts/SpecialOps/SpecialOperations.cs:48-53 | int + string giving string finds the (object, string) concatenation |
| SpecialOps.ReversedIntString | TinyReflectiveToolkit/Contracts/SpecialOps/SpecialOperations.cs:48-53 | with reverse set, int + string finds the (string, object) concatenation, whose parameters take the inputs swapped |
| SpecialOps.NonOperatorsUntagged | TinyReflectiveToolkit/Contracts/SpecialOps/Operators.cs:13-304 | no conversion entry and not IdentityMarker carries SpecialOperator |
| SpecialOps.TableMarksAddition | TinyReflectiveToolkit/Contracts/SpecialOps/Operators.cs:13-304 | the only operator marker in the table is the addition marker |
| SpecialOps.OnlyAdditionMarkerFinds | TinyReflectiveToolkit/Contracts/SpecialOps/SpecialOperations.cs:46 | any other marker finds nothing |
| SpecialOps.LookupStaysInTagged | TinyReflectiveToolkit/Contracts/SpecialOps/SpecialOperations.cs:45-56 | untagged methods after the operators never change what the lookup finds |
| SpecialOps.OperatorIsAnOperatorEntry | TinyReflectiveToolkit/Contracts/SpecialOps/SpecialOperations.cs:43-57 | whatever the operator lookup finds is an operator entry that qualifies |
| LegacySpecialOps.LegacyIdentityMarkerMethodInfo | TinyReflectiveToolkit/Contracts/SpecialOperations.cs:34-37 | the Single lookup by name yields the IdentityMarker method |
| LegacySpecialOps.LegacyTaggedAreConversions | TinyReflectiveToolkit/Contracts/SpecialOperations.cs:41-42 | the tagged methods are exactly FloatToInt, DoubleToInt and ByteToInt |
| LegacySpecialOps.LegacyKeysDistinct | TinyReflectiveToolkit/Contracts/SpecialOperations.cs:62-88 | the three conversions have distinct (source, target) pairs |
| LegacySpecialOps.LegacyGetSpecialConversion | TinyReflectiveToolkit/Contracts/SpecialOperations.cs:39-48 | SingleOrDefault over the older table; LegacySpecialOps.LegacyNeverThrows and LegacySpecialOps.LegacyConversionsFound state that it never throws and what it finds |
| LegacySpecialOps.LegacyNeverThrows | TinyReflectiveToolkit/Contracts/SpecialOperations.cs:47 | the SingleOrDefault over the older table never throws |
| LegacySpecialOps.LegacyConversionsFound | TinyReflectiveToolkit/Contracts/SpecialOperations.cs:62-88 | byte, float and double to int find ByteToInt, FloatToInt and DoubleToInt |
| LegacySpecialOps.LegacyOnlyToInt | TinyReflectiveToolkit/Contracts/SpecialOperations.cs:39-48 | no conversion to any target other than int exists |
| LegacySpecialOps.NothingFound | TinyReflectiveToolkit/Contracts/SpecialOperations.cs:47 | the lookup over a table with no converting entry yields null |
| LegacySpecialOps.LegacyNeverIdentityMarker | TinyReflectiveToolkit/Contracts/SpecialOperations.cs:53-55 | the untagged IdentityMarker is never returned as a conversion |
| ProxyInfos.EmptyProxyInfo | TinyReflectiveToolkit/Contracts/ProxyInfo.cs:29-54 | a new ProxyInfo has no types and every required and found list empty |
| ProxyInfos.IsValid | TinyReflectiveToolkit/Contracts/ProxyInfo.cs:82-111 | the eleven count comparisons and then the eleven null checks; ProxyInfos.IsValidIff states what it decides |
| ProxyInfos.IsValidIff | TinyReflectiveToolkit/Contracts/ProxyInfo.cs:82-111 | valid iff each of the eleven list pairs has as many found as required entries and none found is null |
| ProxyInfos.CountMismatchInvalid | TinyReflectiveToolkit/Contracts/ProxyInfo.cs:86-96 | a count mismatch in any pair makes the info invalid |
| ProxyInfos.NullFoundInvalid | TinyReflectiveToolkit/Contracts/ProxyInfo.cs:98-108 | a null found method or conversion target makes the info invalid |
| ProxyInfos.EmptyProxyInfoIsValid | TinyReflectiveToolkit/Contracts/ProxyInfo.cs:82-111 | the empty info is valid |
| ProxyInfos.ValidWithoutOperators | TinyReflectiveToolkit/Contracts/ProxyInfo.cs:86-108 | with the operator lists empty, validity is the three count-and-null conditions on methods and conversions |
| ContractMatching.RegularRequirements | TinyReflectiveToolkit/Contracts/ContractProvider.cs:116-119 | exactly the contract's public methods that declare neither conversion attribute |
| ContractMatching.ExplicitRequirements | TinyReflectiveToolkit/Contracts/ContractProvider.cs:120-122 | exactly the contract's methods declaring ExplicitConversion |
| ContractMatching.ImplicitRequirements | TinyReflectiveToolkit/Contracts/ContractProvider.cs:123-125 | exactly the contract's methods declaring the implicit conversion attribute |
| ContractMatching.RequirementsPartition | TinyReflectiveToolkit/Contracts/ContractProvider.cs:114-126 | every contract method is in at least one requirement list, and a regular one is in neither conversion list |
| ContractMatching.GetMethod | TinyReflectiveToolkit/Contracts/ContractProvider.cs:130-132 | null iff no public method has the name and parameters; otherwise one that has them |
| ContractMatching.LookUpMethods | TinyReflectiveToolkit/Contracts/ContractProvider.cs:128-132 | one GetMethod result per required method, in order |
| ContractMatching.DropNulls | TinyReflectiveToolkit/Contracts/ContractProvider.cs:133 | the result holds exactly the input's non-null entries, in their original order, and is as long as the input iff the input has no null |
| ContractMatching.LookUpAllFound | TinyReflectiveToolkit/Contracts/ContractProvider.cs:128-133 | no lookup yields null iff every required method has an implementation |
| ContractMatching.ConversionCandidates | TinyReflectiveToolkit/Contracts/ContractProvider.cs:141-144 | exactly the operators with the required return type and the operator name |
| ContractMatching.ConversionFor | TinyReflectiveToolkit/Contracts/ContractProvider.cs:139-146 | null iff there is no candidate; otherwise a candidate |
| ContractMatching.BindConversions | TinyReflectiveToolkit/Contracts/ContractProvider.cs:139-154 | one (name, candidate) binding per required conversion, in order |
| ContractMatching.BindAllFound | TinyReflectiveToolkit/Contracts/ContractProvider.cs:139-154 | every binding has a target iff every required conversion has a candidate |
| ContractMatching.BuildProxyInfo | TinyReflectiveToolkit/Contracts/ContractProvider.cs:114-154 | the info's required lists are the three requirement filters, the found methods are the non-null GetMethod results and the found conversions are the bindings over the type's operators |
| ContractMatching.BuiltInfoValidIff | TinyReflectiveToolkit/Contracts/ContractProvider.cs:156 | the built info is valid iff every required method and conversion has an implementation |
| ContractMatching.StubReturnTypes | TinyReflectiveToolkit/Contracts/ContractProvider.cs:211-215 | reading each binding's return type fails with NullReferenceException iff some binding has no target; otherwise one return type per binding |
| ContractMatching.AllBoundConcat | TinyReflectiveToolkit/Contracts/ContractProvider.cs:211 | a concatenation is all bound iff both parts are |
| ContractMatching.StubsBuiltIffConversionsFound | TinyReflectiveToolkit/Contracts/RuntimeContractExtensions.cs:186-198 | reading the return type of every found conversion succeeds iff every required explicit and implicit conversion has a candidate |
| ContractMatching.ValidInfoBuildsStubs | TinyReflectiveToolkit/Contracts/ContractProvider.cs:211-215 | a valid info's conversion stubs never dereference null |
| ContractCache.FreshCheck | TinyReflectiveToolkit/Contracts/ContractProvider.cs:114-162 | a fresh match gives no proxy; it is satisfied iff the checker's test accepts the pair, and then it carries the built info |
| ContractCache.CheckOutcome | TinyReflectiveToolkit/Contracts/ContractProvider.cs:92-163 | the only exception is NotSupportedException; a recorded match carries no proxy |
| ContractCache.CountsMatchAsWritten | TinyReflectiveToolkit/Contracts/RuntimeContractExtensions.cs:138-141 | the count comparison as written; ContractCache.AsWrittenChecksOnlyMethods states that it holds iff every regular method is found |
| ContractCache.AsWrittenChecksOnlyMethods | TinyReflectiveToolkit/Contracts/RuntimeContractExtensions.cs:121-141 | the as-written count test holds iff every required regular method is implemented, whatever the conversions |
| ContractCache.TestDecides | TinyReflectiveToolkit/Contracts/ContractProvider.cs:156 | IsValid of the built info holds iff the type structurally satisfies the contract, the as-written count test iff every regular method is found, and both accept every structurally satisfying pair |
| ContractCache.KnownIsAccepted | TinyReflectiveToolkit/Contracts/RuntimeContractExtensions.cs:92-93 | a pair in a set of accepted pairs passes the guards and the test |
| ContractCache.RecordAccepted | TinyReflectiveToolkit/Contracts/RuntimeContractExtensions.cs:143 | adding an accepted pair keeps every known pair accepted |
| ContractCache.KnownIsSatisfied | TinyReflectiveToolkit/Contracts/ContractProvider.cs:109-110 | a pair in the known set passes the guards and is structurally satisfied |
| ContractCache.AddSatisfied | TinyReflectiveToolkit/Contracts/ContractProvider.cs:225 | adding a satisfied pair keeps every pair of the set satisfied |
| ContractCache.ValidityAcceptsSatisfied | TinyReflectiveToolkit/Contracts/ContractProvider.cs:156 | under the IsValid test, acceptance is the same as passing the guards and structural satisfaction |
| ContractCache.ValidityKnownSatisfied | TinyReflectiveToolkit/Contracts/ContractProvider.cs:159 | every pair accepted under the IsValid test is satisfied |
| ContractCache.EmitKeepsFresh | TinyReflectiveToolkit/Contracts/ContractProvider.cs:194-225 | caching a newly named proxy type keeps the cached types distinct and below the next serial |
| ContractCache.SkipKeepsFresh | TinyReflectiveToolkit/Contracts/RuntimeContractExtensions.cs:164 | drawing a Guid without emitting its type keeps the cached types distinct and below the next serial |
| ContractCache.EmitStaysKnown | TinyReflectiveToolkit/Contracts/ContractProvider.cs:225 | caching a proxy for a known pair keeps every cached pair known |
| ContractCache.CachedAlreadyKnown | TinyReflectiveToolkit/Contracts/ContractProvider.cs:159 | recording a pair that already has a proxy leaves the known set unchanged |
| ContractCache.CachedStayKnown | TinyReflectiveToolkit/Contracts/ContractProvider.cs:159 | growing the known set keeps every cached pair known |
| ContractCache.SatisfiedInfoBuildsStubs | TinyReflectiveToolkit/Contracts/ContractProvider.cs:211-220 | a satisfied pair's info builds its conversion stubs without a null dereference |
| ContractCache.FreshStubsIffSatisfied | TinyReflectiveToolkit/Contracts/RuntimeContractExtensions.cs:186-198 | for a pair with every regular method found, the conversion stubs read every return type without a null dereference iff the pair structurally satisfies the contract |
| ContractCache.GuardsPrecedeCaches | TinyReflectiveToolkit/Contracts/ContractProvider.cs:96-98 | a failed guard throws NotSupportedException whatever the caches hold |
| ContractCache.CachedProxyShortCircuits | TinyReflectiveToolkit/Contracts/ContractProvider.cs:102-107 | a cached proxy answers (true, proxy, null) without matching |
| ContractCache.KnownPairShortCircuits | TinyReflectiveToolkit/Contracts/ContractProvider.cs:109-110 | when the info is not wanted, a known pair answers (true, null, null) |
| ContractCache.FreshMatch | TinyReflectiveToolkit/Contracts/ContractProvider.cs:156-162 | otherwise the answer is a fresh match, recorded exactly when the pair passes the guards and the checker's test |
| ContractCache.CachesAgreeWithMatching | TinyReflectiveToolkit/Contracts/ContractProvider.cs:102-162 | when every cached pair is known and every known pair accepted, the answer is "satisfied" iff the checker's test accepts the pair |
| ContractCache.ProxyWantedOutcome | TinyReflectiveToolkit/Contracts/ContractProvider.cs:184-191 | with the info always wanted: the guards' exception, else satisfied iff the checker's test accepts the pair, together with the cached proxy or, for an uncached pair, the fresh info |
| ContractCache.ProxyWantedRecords | TinyReflectiveToolkit/Contracts/RuntimeContractExtensions.cs:154 | with the info always wanted, the set of known pairs after the check is the old set plus the pair exactly when the checker's test and the guards accept it |
| ContractProviders.ContractProvider.constructor | TinyReflectiveToolkit/Contracts/ContractProvider.cs:45-62 | both caches start empty and no proxy type has been emitted |
| ContractProviders.ContractProvider.GetProxyTypeOrNull | TinyReflectiveToolkit/Contracts/ContractProvider.cs:72-79 | the cached proxy type of the pair, or null iff none is cached |
| ContractProviders.ContractProvider.CheckIfSatisfies | TinyReflectiveToolkit/Contracts/ContractProvider.cs:92-163 | the result is the check outcome for the old caches, the pair is recorded iff freshly satisfied, and the proxy cache is untouched |
| ContractProviders.ContractProvider.Match | TinyReflectiveToolkit/Contracts/ContractProvider.cs:114-156 | the built info, and IsValid of it, which holds iff the type structurally satisfies the contract |
| ContractProviders.ContractProvider.MatchAndRecord | TinyReflectiveToolkit/Contracts/ContractProvider.cs:156-162 | a fresh check, with the pair added to the known set iff it is satisfied |
| ContractProviders.ContractProvider.Record | TinyReflectiveToolkit/Contracts/ContractProvider.cs:159 | adds the satisfied pair to the known set and nothing else |
| ContractProviders.ContractProvider.CheckIfSatisfiesObject | TinyReflectiveToolkit/Contracts/ContractProvider.cs:87-91 | NotSupportedException iff a guard fails; otherwise true iff the object's type structurally satisfies the contract, whatever the caches held |
| ContractProviders.ContractProvider.GenerateProxy | TinyReflectiveToolkit/Contracts/ContractProvider.cs:64-70 | an instance of the proxy type whose InternalObject is the object |
| ContractProviders.ContractProvider.CreateProxy | TinyReflectiveToolkit/Contracts/ContractProvider.cs:194-225 | emits a proxy type with the next serial, caches it under the pair and returns an adapter of it; the cached types stay distinct |
| ContractProviders.ContractProvider.ConvertToContractInstance | TinyReflectiveToolkit/Contracts/ContractProvider.cs:171-234 | NotSupportedException from the guards; otherwise an adapter iff the type structurally satisfies the contract, InvalidOperationException if not; the adapter's type is the pair's cached proxy, emitted now if there was none; the pair is known afterwards |
| ContractProviders.ContractProvider.AdapterFor | TinyReflectiveToolkit/Contracts/ContractProvider.cs:184-233 | given the check's outcome: its exception, InvalidOperationException when unsatisfied, the cached proxy's adapter, or a new proxy type's adapter |
| ContractProviders.ContractProvider.EmitAdapter | TinyReflectiveToolkit/Contracts/ContractProvider.cs:192-225 | for a known pair without a proxy type, the class invariant is kept, the next serial becomes the pair's cached proxy type and the adapter wraps the object in it |
| RuntimeContracts.PlainTypeInfo | TinyReflectiveToolkit/Contracts/RuntimeContractExtensions.cs:96-136 | for the one-conversion contract and a type with no members, the info requires one explicit conversion and binds it to null |
| RuntimeContracts.PlainTypePassesAsWritten | TinyReflectiveToolkit/Contracts/RuntimeContractExtensions.cs:138-141 | that pair passes the guards and the as-written test |
| RuntimeContracts.PlainTypeLacksConversion | TinyReflectiveToolkit/Contracts/RuntimeContractExtensions.cs:121-128 | that type does not structurally satisfy the contract |
| RuntimeContracts.PlainTypeStubDereferencesNull | TinyReflectiveToolkit/Contracts/RuntimeContractExtensions.cs:186-190 | building that pair's conversion stub reads the return type of a null method |
| RuntimeContracts.AsWrittenAcceptsMissingConversion | TinyReflectiveToolkit/Contracts/RuntimeContractExtensions.cs:121-141 | the finding: the as-written test accepts a type that lacks the required conversion, and the stub then dereferences null |
| RuntimeContracts.DropUnbound | TinyReflectiveToolkit/Contracts/RuntimeContractExtensions.cs:128 | removes exactly the bindings without a target, so the length is kept iff all are bound |
| RuntimeContracts.CorrectedCountsMatch | TinyReflectiveToolkit/Contracts/RuntimeContractExtensions.cs:138-141 | the count comparison with the unbound conversion tuples dropped; RuntimeContracts.CorrectedIffSatisfies states what it decides |
| RuntimeContracts.CorrectedIffSatisfies | TinyReflectiveToolkit/Contracts/RuntimeContractExtensions.cs:138-141 | the corrected count test holds iff the type structurally satisfies the contract |
| RuntimeContracts.CorrectedAgreesWithIsValid | TinyReflectiveToolkit/Contracts/RuntimeContractExtensions.cs:138-141 | the corrected count test agrees with ProxyInfo.IsValid on the built info |
| RuntimeContracts.RuntimeContractExtensions.constructor | TinyReflectiveToolkit/Contracts/RuntimeContractExtensions.cs:46-50 | both static caches start empty |
| RuntimeContracts.RuntimeContractExtensions.GetProxyTypeOrNull | TinyReflectiveToolkit/Contracts/RuntimeContractExtensions.cs:220-226 | the cached proxy type of the pair, or null iff none is cached |
| RuntimeContracts.RuntimeContractExtensions.SatisfiesType | TinyReflectiveToolkit/Contracts/RuntimeContractExtensions.cs:79-145 | the result is the check outcome for the old caches under the count test as written, the pair is recorded iff freshly accepted, and the proxy cache is untouched |
| RuntimeContracts.RuntimeContractExtensions.Match | TinyReflectiveToolkit/Contracts/RuntimeContractExtensions.cs:96-141 | the built info, and the count comparison as written, which holds iff every regular method of the contract is found on the type |
| RuntimeContracts.RuntimeContractExtensions.MatchAndRecord | TinyReflectiveToolkit/Contracts/RuntimeContractExtensions.cs:138-144 | a fresh check under the count test as written, with the pair added to the known set iff it is accepted |
| RuntimeContracts.RuntimeContractExtensions.Record | TinyReflectiveToolkit/Contracts/RuntimeContractExtensions.cs:143 | adds a pair that passes the guards and the count test as written to the known set, and nothing else |
| RuntimeContracts.RuntimeContractExtensions.Satisfies | TinyReflectiveToolkit/Contracts/RuntimeContractExtensions.cs:73-77 | NotSupportedException iff a guard fails; otherwise true iff every regular method of the contract is found on the object's type, whatever the caches held |
| RuntimeContracts.RuntimeContractExtensions.GenerateProxy | TinyReflectiveToolkit/Contracts/RuntimeContractExtensions.cs:212-218 | an instance of the proxy type whose InternalObject is the object |
| RuntimeContracts.RuntimeContractExtensions.CreateProxy | TinyReflectiveToolkit/Contracts/RuntimeContractExtensions.cs:164-202 | given the stub outcome of a known uncached pair: a NullReferenceException, with the serial used up and the cache unchanged, iff the pair is not structurally satisfied; otherwise a proxy type with the next serial, distinct from every cached one, is cached under the pair and adapted |
| RuntimeContracts.RuntimeContractExtensions.ConversionStubs | TinyReflectiveToolkit/Contracts/RuntimeContractExtensions.cs:186-198 | the return types of the found conversions of a known pair's info; NullReferenceException iff the pair is not structurally satisfied |
| RuntimeContracts.RuntimeContractExtensions.DrawSerial | TinyReflectiveToolkit/Contracts/RuntimeContractExtensions.cs:164 | Guid.NewGuid() for a proxy type that is never created: the serial is used up and the cache invariant is kept |
| RuntimeContracts.RuntimeContractExtensions.EmitProxyType | TinyReflectiveToolkit/Contracts/RuntimeContractExtensions.cs:201-202 | the type named by the next serial, distinct from every cached one, becomes the proxy type of the satisfied pair |
| RuntimeContracts.RuntimeContractExtensions.ToContract | TinyReflectiveToolkit/Contracts/RuntimeContractExtensions.cs:61-65 | NotSupportedException from the guards; InvalidOperationException when a regular method is missing; NullReferenceException when only a conversion is missing; an adapter iff the pair is structurally satisfied, whose type is the cached proxy, emitted now if there was none; the pair becomes known iff it passes the count test as written |
| RuntimeContracts.RuntimeContractExtensions.WantedCheck | TinyReflectiveToolkit/Contracts/RuntimeContractExtensions.cs:150-157 | NotSupportedException iff a guard fails; otherwise satisfied iff the count test as written accepts, with the cached proxy iff there is one and the fresh info for an uncached satisfied pair; the pair becomes known iff it is accepted, and the proxy cache is unchanged |
| RuntimeContracts.RuntimeContractExtensions.AdapterFor | TinyReflectiveToolkit/Contracts/RuntimeContractExtensions.cs:147-210 | given the check's outcome: its exception, InvalidOperationException when not accepted, the cached proxy's adapter, or for an uncached pair a used-up serial and either a new proxy type's adapter, iff the pair is structurally satisfied, or NullReferenceException |
| LegacyContracts.CastFunctions | TinyReflectiveToolkit/RuntimeContractExtensions.cs:111-126 | InvalidOperationException iff some required conversion has no single candidate; otherwise that candidate for each, in order |
| LegacyContracts.LegacySatisfies | TinyReflectiveToolkit/RuntimeContractExtensions.cs:87-126 | every regular method found and exactly one candidate per conversion; LegacyContracts.LegacyIsStructuralWithoutAmbiguity relates it to structural satisfaction |
| LegacyContracts.ForwardTargets | TinyReflectiveToolkit/RuntimeContractExtensions.cs:131-134 | NullReferenceException iff a required method was not found; otherwise the found methods, in order |
| LegacyContracts.BuildStubs | TinyReflectiveToolkit/RuntimeContractExtensions.cs:87-145 | the stubs build iff the legacy test holds; Single's InvalidOperationException comes first, then the null dereference; the stubs implement every requirement |
| LegacyContracts.AllUniqueIff | TinyReflectiveToolkit/RuntimeContractExtensions.cs:117 | every conversion is unique iff each has exactly one candidate |
| LegacyContracts.LegacyIsStructuralWithoutAmbiguity | TinyReflectiveToolkit/RuntimeContractExtensions.cs:87-126 | the legacy test is structural satisfaction plus at most one candidate per conversion |
| LegacyContracts.ConvertibleContractRequirements | TinyReflectiveToolkit/RuntimeContractExtensions.cs:87-96 | the one-conversion contract requires no regular methods and one explicit conversion |
| LegacyContracts.TwoCastsCandidates | TinyReflectiveToolkit/RuntimeContractExtensions.cs:113-116 | a struct S with explicit casts to int from S and from S? has both as candidates |
| LegacyContracts.TwoCastsAmbiguous | TinyReflectiveToolkit/RuntimeContractExtensions.cs:117 | so its conversion is not unique |
| LegacyContracts.TwoCastsSatisfiesStructurally | TinyReflectiveToolkit/Contracts/RuntimeContractExtensions.cs:121-128 | the newer checkers accept that type |
| LegacyContracts.LegacyRejectsTwoCasts | TinyReflectiveToolkit/RuntimeContractExtensions.cs:111-118 | the legacy class rejects it with InvalidOperationException |
| LegacyContracts.AmbiguousConversionRejectedByLegacy | TinyReflectiveToolkit/RuntimeContractExtensions.cs:111-126 | both newer checkers accept the pair for either implicit attribute while the legacy class rejects it |
| LegacyContracts.AddLegacyAccepted | TinyReflectiveToolkit/RuntimeContractExtensions.cs:176 | caching an accepted pair keeps every cached pair accepted |
| LegacyContracts.LegacyContractExtensions.constructor | TinyReflectiveToolkit/RuntimeContractExtensions.cs:48-49 | the proxy cache starts empty |
| LegacyContracts.LegacyContractExtensions.GenerateProxy | TinyReflectiveToolkit/RuntimeContractExtensions.cs:186-193 | an instance of the pair's cached proxy type whose InternalObject is the object |
| LegacyContracts.LegacyContractExtensions.ToContract | TinyReflectiveToolkit/RuntimeContractExtensions.cs:57-77 | NotSupportedException from the guards; otherwise an adapter iff the legacy test holds, with the stub exception otherwise; a cached pair reuses its proxy and a new one is cached |
| LegacyContracts.LegacyContractExtensions.CreateProxy | TinyReflectiveToolkit/RuntimeContractExtensions.cs:79-183 | a failing stub leaves the cache as it was; otherwise a proxy type with the next serial is cached under the pair and adapted |
| AssemblyLoading.LoadEvents | TinyReflectiveToolkit/AssemblyLoader.cs:107-115 | two events per loaded name |
| AssemblyLoading.LoadEventsAt | TinyReflectiveToolkit/AssemblyLoader.cs:107-115 | AssemblyLoading(name) and then AssemblyLoaded(assembly), per name, in load order |
| AssemblyLoading.LoadEventsConcat | TinyReflectiveToolkit/AssemblyLoader.cs:107-124 | the events of two load sequences concatenate |
| AssemblyLoading.NewReferenced | TinyReflectiveToolkit/AssemblyLoader.cs:117-121 | exactly the references not yet loaded, sorted by the key when one is given |
| AssemblyLoading.ParentedIsReachable | TinyReflectiveToolkit/AssemblyLoader.cs:102-125 | every name in a load sequence starting at the root, each name after the first referenced by an earlier one, lies in any reference-closed set holding the root |
| AssemblyLoading.CoveredGrows | TinyReflectiveToolkit/AssemblyLoader.cs:123-124 | references stay covered as the sequence grows |
| AssemblyLoading.EventsGrow | TinyReflectiveToolkit/AssemblyLoader.cs:123-124 | the events of a grown sequence extend those of the old one |
| AssemblyLoading.EventsStep | TinyReflectiveToolkit/AssemblyLoader.cs:123-124 | consecutive visits log the events of their loads in sequence |
| AssemblyLoading.KeptThrough | TinyReflectiveToolkit/AssemblyLoader.cs:123-124 | names loaded by earlier siblings stay loaded |
| AssemblyLoading.AppendKeepsTraversal | TinyReflectiveToolkit/AssemblyLoader.cs:104-112 | appending a new referenced name keeps the sequence duplicate-free and parented |
| AssemblyLoading.AppendKeepsParented | TinyReflectiveToolkit/AssemblyLoader.cs:111 | appending a name referenced by an earlier one keeps the sequence parented |
| AssemblyLoading.VisitOutcome | TinyReflectiveToolkit/AssemblyLoader.cs:117-124 | after loading a name and visiting its new references, the references of every name from it on are covered and the events are those of the loads |
| AssemblyLoading.UnvisitedShrinks | TinyReflectiveToolkit/AssemblyLoader.cs:104-111 | loading a name removes exactly it from the unvisited names |
| AssemblyLoading.DfsFrom | TinyReflectiveToolkit/AssemblyLoader.cs:102-125 | the reference depth-first order from a name: an already visited name adds nothing, otherwise the name and then each new reference in turn; the result extends the visited list within the universe |
| AssemblyLoading.DfsAll | TinyReflectiveToolkit/AssemblyLoader.cs:123-124 | visiting a list of names in turn, each from what the previous ones visited; the result extends the visited list within the universe |
| AssemblyLoading.DfsAllStep | TinyReflectiveToolkit/AssemblyLoader.cs:123-124 | visiting names[i..] is visiting names[i] and then names[i+1..] |
| AssemblyLoading.ExampleIsDepthFirst | TinyReflectiveToolkit/AssemblyLoader.cs:102-125 | for R referencing A and B and A referencing C, the order is R, A, C, B |
| AssemblyLoading.AssemblyLoader.constructor | TinyReflectiveToolkit/AssemblyLoader.cs:55-58 | sets the root; nothing is loaded and no event is raised |
| AssemblyLoading.AssemblyLoader.HasLoaded | TinyReflectiveToolkit/AssemblyLoader.cs:97-100 | true iff the name is in the loaded list |
| AssemblyLoading.AssemblyLoader.LoadAllDependencies | TinyReflectiveToolkit/AssemblyLoader.cs:82-92 | resets the lists and loads exactly the depth-first order DfsFrom from the root: the root first, each name once, a reference-closed set, logging each load followed by AllAssembliesLoaded with the loaded assemblies |
| AssemblyLoading.AssemblyLoader.LoadName | TinyReflectiveToolkit/AssemblyLoader.cs:107-115 | appends the name and its assembly and logs AssemblyLoading and AssemblyLoaded |
| AssemblyLoading.AssemblyLoader.Visit | TinyReflectiveToolkit/AssemblyLoader.cs:102-105 | a loaded name changes nothing; otherwise the loaded list grows exactly by DfsFrom's order from the name, every later reference is covered and the events are those of the new loads |
| AssemblyLoading.AssemblyLoader.LoadAndVisit | TinyReflectiveToolkit/AssemblyLoader.cs:102-125 | loads the name, then each of its new references, so the loaded list grows exactly by DfsFrom's order, covering every reference from it on |
| AssemblyLoading.AssemblyLoader.VisitReferences | TinyReflectiveToolkit/AssemblyLoader.cs:123-124 | the loaded list grows exactly by DfsAll's order over the listed references, so each is loaded afterwards, the first right after the names before, with the events of the loads |
| AssemblyLoading.AssemblyLoader.VisitNext | TinyReflectiveToolkit/AssemblyLoader.cs:123-124 | one iteration of the foreach: visiting the next reference keeps the loop invariant, including that the rest of the depth-first order is still to come |
| AssemblyLoading.AssemblyLoader.VisitedNone | TinyReflectiveToolkit/AssemblyLoader.cs:123 | the loop invariant holds before the first reference |
| AssemblyLoading.AssemblyLoader.VisitedAll | TinyReflectiveToolkit/AssemblyLoader.cs:124 | after the last reference the invariant gives the whole contract of VisitReferences |

## Left out

- Emitting IL (DefineType, DefineMethod, the ILGenerator stubs, GenerateStub and IL/ILHelper.cs) is not part of this model. An emitted proxy type is a fresh `Dynamic(serial)` token, and an instance of it is an `Adapter` holding the object.
- Saving the dynamic assembly for debugging is I/O and is left out.
- The ReaderWriterLock of ContractProvider and its timeouts are concurrency and are left out. This includes that the writer lock taken at Contracts/ContractProvider.cs:112 is not released on the invalid path at line 156-157, and that a second call from another thread would then time out.
- Floating-point entries of the special-operations table are left out, because floating point is not modelled: the float and double additions, the private `Equal(double, double)`, the ToDouble and ToFloat bodies, and the legacy FloatToInt and DoubleToInt bodies. Their signatures and attributes are in the table, so the lookups over them are modelled.
- The private `Equal(int, int)` (SpecialOps/Operators.cs:312-315) is modelled as the predicate `SpecialArithmetic.EqualInt` with no separate contract, since it is the equality it names. Being private, neither Equal is seen by GetMethods(), so neither is in the table.
- GetMethods.cs, GetProperties.cs, GetAbstractMethods.cs, IsDelegate.cs, HasAttribute.cs, SelectAttribute.cs and AssemblyExtensions.cs are thin wrappers of reflection calls. Apart from HasAttribute, SelectAttribute and GetMethods(), which the model uses as definitions, they are not part of this model.
- The GetExtensionMethods helpers are not part of this model.
- The exception-catching branches of IsExtensionMethod (IsExtensionMethod.cs:51-55) are not modelled, because reflection is total here.
- WithoutAttribute's own source is not part of this model. Its filter appears only as `ContractMatching.LacksAttribute`.
- Assembly.Load is a parameter (`load`), and its failure (FileNotFoundException) is not modelled.
- LoadImmediateDependencies is not modelled.
- The parameterless AssemblyLoader constructor, which uses the calling assembly, is not modelled.
- The loader's events are a log. A null handler makes no difference in the model.
- AssemblyLoading.AssemblyLoader.LoadAllDependencies: the ordering key is an `int`-valued function rather than an arbitrary IComparable. OrderBy's stability is not stated.
- DynamicConversion.cs and the attribute declaration files are not part of the deciding logic, so they are not modelled.
- ProxyInfos.EmptyProxyInfo: the operator lists are modelled as pairs. The source declares 3-tuples, but its checkers build only the first two components.
- LegacyContracts.LegacyContractExtensions.CreateProxy: the TypeBuilder left defined by a failing call is not modelled. On failure the serial is not advanced, although the source has consumed a Guid.
- ContractMatching.GetMethod: Type.GetMethod's binder is modelled by an exact parameter-type match. Binder widening is not modelled.
- Calls on a null object (obj.GetType() on null) are not modelled. Objects always have a runtime type.
- The order of GetMethods() is taken to be the declaration order of the table files. The public methods inherited from System.Object (ToString, Equals, GetHashCode, GetType) are left out of the tables: none carries an attribute or is named IdentityMarker, so no lookup depends on them.
- ContractProviders.ContractProvider.CreateProxy: CreateType can fail with TypeLoadException, because GetMethod matches only the name and the parameter types and the stub takes the found method's return type, which may differ from the contract's. This failure is not modelled; the proxy type is always created. The same holds for ContractProviders.ContractProvider.ConvertToContractInstance and ContractProviders.ContractProvider.AdapterFor, which call it, so their "adapter iff structurally satisfied" assumes CreateType succeeds.
- RuntimeContracts.RuntimeContractExtensions.CreateProxy: the same TypeLoadException of CreateType is not modelled. The same holds for RuntimeContracts.RuntimeContractExtensions.AdapterFor, LegacyContracts.LegacyContractExtensions.CreateProxy and the ToContract methods that call them.
- Reflection.IsA: a user-defined attribute class is modelled with one chain of user-defined base classes, and a sealed class is never a base. The library's attribute classes whose declarations are in the source (the operator attributes, CastAttribute, SpecialConversionAttribute and both ImplicitConversionAttributes) are modelled with their declared hierarchy and sealedness. ExplicitConversionAttribute and SpecialOperatorAttribute are declared in files that are not part of this model; they are assumed to be sealed, and Reflection.SealedIsExact, with it the exact attribute matching of the contract checkers and the special-operator lookup, depends on that assumption.
- AssemblyLoading.AssemblyLoader: the ghost universe bounds only the recursion of Visit. The source has no such bound.

## Findings

| source | as written | input that shows it | evidently intended | confidence | as-written member | corrected member |
|---|---|---|---|---|---|---|
| TinyReflectiveToolkit/Contracts/RuntimeContractExtensions.cs:121-141 | `Except(x => x == null)` is applied to the (name, method) tuples of the found conversions. No tuple is null, so nothing is dropped, and the found and required conversion counts always match. | the one-conversion contract `RuntimeContracts.ConvertibleContract`, with one explicit conversion to int, against `RuntimeContracts.PlainType`, a public type with no members: the check accepts it, and ToContract then reads the return type of a null method at line 190 | drop the tuples whose method is null, as ProxyInfo.IsValid requires, so that a missing conversion fails the check | not executed | RuntimeContracts.AsWrittenAcceptsMissingConversion | RuntimeContracts.CorrectedIffSatisfies |

`RuntimeContracts.RuntimeContractExtensions` models this class as written: its `ToContract` ends in `NullReferenceException` for such a pair, and its `Satisfies` answers true for it. The corrected test is `RuntimeContracts.CorrectedCountsMatch`. `RuntimeContracts.CorrectedAgreesWithIsValid` proves that it decides the same as `ProxyInfo.IsValid`, so `ContractProviders.ContractProvider` has the intended behaviour.
