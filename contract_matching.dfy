/**
 * The requirement matching shared by the three contract checkers: splitting a contract's
 * methods into regular methods and explicit and implicit conversions, looking each one up on
 * the implementation type, and assembling the ProxyInfo record.
 */
module ContractMatching {
  import opened Wrappers
  import opened Linq
  import opened Reflection
  import opened WithAttributes
  import opened Operators
  import opened ProxyInfos

  // ---- the contract's requirements ----

  /** WithoutAttribute<T>(): the elements that declare no attribute of the class. */
  function LacksAttribute(a: AttributeType): (f: Method -> bool)
    ensures forall m :: f(m) == !HasAttribute(m.attributes, a)
  {
    (m: Method) => !HasAttribute(m.attributes, a)
  }

  /** contract.GetMethods().WithoutAttribute<ExplicitConversion>().WithoutAttribute<ImplicitConversion>(). */
  function RegularRequirements(contract: TypeDesc, implicitAttribute: AttributeType): (r: seq<Method>)
    ensures forall m :: m in r <==> (m in PublicMethods(contract) &&
      !HasAttribute(m.attributes, ExplicitConversionAttribute) && !HasAttribute(m.attributes, implicitAttribute))
  {
    Filter(Filter(PublicMethods(contract), LacksAttribute(ExplicitConversionAttribute)), LacksAttribute(implicitAttribute))
  }

  /** contract.GetMethods().WithAttribute<ExplicitConversionAttribute>(). */
  function ExplicitRequirements(contract: TypeDesc): (r: seq<Method>)
    ensures forall m :: m in r <==> m in PublicMethods(contract) && HasAttribute(m.attributes, ExplicitConversionAttribute)
  {
    MethodsWithAttribute(Some(PublicMethods(contract)), ExplicitConversionAttribute).value
  }

  /** contract.GetMethods().WithAttribute<ImplicitConversionAttribute>(), for the attribute class in scope. */
  function ImplicitRequirements(contract: TypeDesc, implicitAttribute: AttributeType): (r: seq<Method>)
    ensures forall m :: m in r <==> m in PublicMethods(contract) && HasAttribute(m.attributes, implicitAttribute)
  {
    MethodsWithAttribute(Some(PublicMethods(contract)), implicitAttribute).value
  }

  /**
   * Every method of the contract is a requirement of at least one kind, and a regular
   * requirement is never also a conversion requirement.
   */
  lemma RequirementsPartition(contract: TypeDesc, implicitAttribute: AttributeType, m: Method)
    requires m in PublicMethods(contract)
    ensures m in RegularRequirements(contract, implicitAttribute) ||
            m in ExplicitRequirements(contract) || m in ImplicitRequirements(contract, implicitAttribute)
    ensures m in RegularRequirements(contract, implicitAttribute) ==>
            m !in ExplicitRequirements(contract) && m !in ImplicitRequirements(contract, implicitAttribute)
  {
  }

  // ---- looking requirements up on the implementation type ----

  function HasSignature(name: string, parameters: seq<ClrType>): (f: Method -> bool)
    ensures forall m :: f(m) == (m.name == name && m.parameters == parameters)
  {
    (m: Method) => m.name == name && m.parameters == parameters
  }

  /**
   * Type.GetMethod(name, types): the public method with that name and exactly those parameter
   * types, or null; the return type plays no part.
   */
  function GetMethod(t: TypeDesc, name: string, parameters: seq<ClrType>): (r: Option<Method>)
    ensures r.Some? ==> r.value in PublicMethods(t) && r.value.name == name && r.value.parameters == parameters
    ensures r.None? <==> forall m :: m in PublicMethods(t) ==> !(m.name == name && m.parameters == parameters)
  {
    FindFirst(PublicMethods(t), HasSignature(name, parameters))
  }

  /** The lookup of one regular requirement, by its name and parameter types. */
  function Implementation(t: TypeDesc): (f: Method -> Option<Method>)
    ensures forall x :: f(x) == GetMethod(t, x.name, x.parameters)
  {
    (x: Method) => GetMethod(t, x.name, x.parameters)
  }

  /** RequiredMethods.Select(x => type.GetMethod(x.Name, parameter types of x)), nulls kept. */
  function LookUpMethods(t: TypeDesc, required: seq<Method>): (r: seq<Option<Method>>)
    ensures |r| == |required|
    ensures forall i :: 0 <= i < |required| ==> r[i] == GetMethod(t, required[i].name, required[i].parameters)
  {
    Select(required, Implementation(t))
  }

  function IsPresent(): (f: Option<Method> -> bool)
    ensures forall o :: f(o) == o.Some?
  {
    (o: Option<Method>) => o.Some?
  }

  /** Except(x => x == null): the found methods, in order, without the nulls. */
  function DropNulls(s: seq<Option<Method>>): (r: seq<Option<Method>>)
    ensures NoNullMethods(r)
    ensures |r| == |s| <==> NoNullMethods(s)
    ensures forall o :: o in r <==> o in s && o.Some?
    ensures Subsequence(r, s)
  {
    FilterKeepsAll(s, IsPresent());
    FilterIsSubsequence(s, IsPresent());
    var r := Filter(s, IsPresent());
    assert forall i :: 0 <= i < |r| ==> r[i] in r;
    r
  }

  /** Every regular requirement has an implementation of the same name and parameter types. */
  predicate AllMethodsFound(t: TypeDesc, required: seq<Method>)
  {
    forall i :: 0 <= i < |required| ==> GetMethod(t, required[i].name, required[i].parameters).Some?
  }

  lemma LookUpAllFound(t: TypeDesc, required: seq<Method>)
    ensures NoNullMethods(LookUpMethods(t, required)) <==> AllMethodsFound(t, required)
  {
  }

  // ---- binding conversions ----

  /** The operators of the type with the required return type and the operator name, in order. */
  function ConversionCandidates(operators: seq<Method>, required: Method, operatorName: string): (r: seq<Method>)
    ensures forall m :: m in r <==> m in operators && m.returnType == required.returnType && m.name == operatorName
  {
    Filter(Filter(operators, ReturnsExactly(required.returnType)), NamedAs(operatorName))
  }

  /**
   * The operators of the type whose return type is the required one and whose name is the
   * operator name, FirstOrDefault: the parameter type of the operator is not examined.
   */
  function ConversionFor(operators: seq<Method>, required: Method, operatorName: string): (r: Option<Method>)
    ensures r.Some? ==> r.value in operators && r.value.returnType == required.returnType && r.value.name == operatorName
    ensures r.None? <==> forall m :: m in operators ==> !(m.returnType == required.returnType && m.name == operatorName)
  {
    var c := ConversionCandidates(operators, required, operatorName);
    assert c != [] ==> c[0] in c;
    FirstOrDefault(c)
  }

  function BindOne(operators: seq<Method>, operatorName: string): (f: Method -> Binding)
    ensures forall x :: f(x) == Binding(x.name, ConversionFor(operators, x, operatorName))
  {
    (x: Method) => Binding(x.name, ConversionFor(operators, x, operatorName))
  }

  /** RequiredXConversions.Select(x => (x.Name, the first matching operator or null)). */
  function BindConversions(operators: seq<Method>, required: seq<Method>, operatorName: string): (r: seq<Binding>)
    ensures |r| == |required|
    ensures forall i :: 0 <= i < |required| ==>
      r[i] == Binding(required[i].name, ConversionFor(operators, required[i], operatorName))
  {
    Select(required, BindOne(operators, operatorName))
  }

  /** Every conversion requirement has an operator of its return type with the operator name. */
  predicate AllConversionsFound(operators: seq<Method>, required: seq<Method>, operatorName: string)
  {
    forall i :: 0 <= i < |required| ==> ConversionFor(operators, required[i], operatorName).Some?
  }

  lemma BindAllFound(operators: seq<Method>, required: seq<Method>, operatorName: string)
    ensures AllBound(BindConversions(operators, required, operatorName)) <==>
            AllConversionsFound(operators, required, operatorName)
  {
  }

  // ---- the ProxyInfo the two newer checkers build ----

  /**
   * The ProxyInfo built for a type and a contract: the three Required lists, FoundMethods
   * without nulls, and one tuple per conversion requirement; the operator lists stay empty.
   */
  function BuildProxyInfo(contract: TypeDesc, t: TypeDesc, implicitAttribute: AttributeType): (p: ProxyInfo)
    ensures p.requiredMethods == RegularRequirements(contract, implicitAttribute)
    ensures p.requiredExplicitConversions == ExplicitRequirements(contract)
    ensures p.requiredImplicitConversions == ImplicitRequirements(contract, implicitAttribute)
    ensures p.foundMethods == DropNulls(LookUpMethods(t, p.requiredMethods))
    ensures p.foundExplicitConversions == BindConversions(GetOperators(t), p.requiredExplicitConversions, ExplicitName)
    ensures p.foundImplicitConversions == BindConversions(GetOperators(t), p.requiredImplicitConversions, ImplicitName)
    ensures OperatorListsEmpty(p)
  {
    var regular := RegularRequirements(contract, implicitAttribute);
    var explicit := ExplicitRequirements(contract);
    var implicit := ImplicitRequirements(contract, implicitAttribute);
    var operators := GetOperators(t);
    ProxyInfo(None, None, regular, explicit, implicit, [], [], [], [], [], [], [], [],
              DropNulls(LookUpMethods(t, regular)),
              BindConversions(operators, explicit, ExplicitName),
              BindConversions(operators, implicit, ImplicitName),
              [], [], [], [], [], [], [], [])
  }

  /**
   * The type structurally satisfies the contract: every regular requirement is found by name
   * and parameter types, and every conversion requirement by return type and operator name.
   */
  predicate StructurallySatisfies(contract: TypeDesc, t: TypeDesc, implicitAttribute: AttributeType)
  {
    && AllMethodsFound(t, RegularRequirements(contract, implicitAttribute))
    && AllConversionsFound(GetOperators(t), ExplicitRequirements(contract), ExplicitName)
    && AllConversionsFound(GetOperators(t), ImplicitRequirements(contract, implicitAttribute), ImplicitName)
  }

  /** The built ProxyInfo is valid exactly when the type structurally satisfies the contract. */
  lemma BuiltInfoValidIff(contract: TypeDesc, t: TypeDesc, implicitAttribute: AttributeType)
    ensures IsValid(BuildProxyInfo(contract, t, implicitAttribute)) <==> StructurallySatisfies(contract, t, implicitAttribute)
  {
    var p := BuildProxyInfo(contract, t, implicitAttribute);
    LookUpAllFound(t, p.requiredMethods);
    BindAllFound(GetOperators(t), p.requiredExplicitConversions, ExplicitName);
    BindAllFound(GetOperators(t), p.requiredImplicitConversions, ImplicitName);
    ValidWithoutOperators(p);
  }

  // ---- the proxy's conversion stubs ----

  /**
   * FoundExplicitConversions.Concat(FoundImplicitConversions).Select(x => x.Item2.ReturnType):
   * the return types of the conversion stubs, NullReferenceException at the first null method.
   */
  function StubReturnTypes(bindings: seq<Binding>): (r: Result<seq<ClrType>>)
    ensures r.Ok? <==> AllBound(bindings)
    ensures r.Err? ==> r.error == NullReference
    ensures r.Ok? ==> (|r.value| == |bindings| &&
      forall i :: 0 <= i < |bindings| ==> r.value[i] == bindings[i].target.value.returnType)
  {
    if bindings == [] then Ok([])
    else if bindings[0].target.None? then Err(NullReference)
    else
      var rest := StubReturnTypes(bindings[1..]);
      assert AllBound(bindings) <==> AllBound(bindings[1..]) by {
        assert forall i :: 1 <= i < |bindings| ==> bindings[i] == bindings[1..][i - 1];
      }
      if rest.Err? then rest else Ok([bindings[0].target.value.returnType] + rest.value)
  }

  lemma AllBoundConcat(a: seq<Binding>, b: seq<Binding>)
    ensures AllBound(a + b) <==> AllBound(a) && AllBound(b)
  {
    if AllBound(a + b) {
      forall i | 0 <= i < |b| ensures b[i].target.Some? { assert (a + b)[|a| + i] == b[i]; }
      forall i | 0 <= i < |a| ensures a[i].target.Some? { assert (a + b)[i] == a[i]; }
    }
  }

  /**
   * The conversion stubs of the ProxyInfo built for a pair read every method's return type
   * without a null dereference exactly when every conversion requirement was found.
   */
  lemma StubsBuiltIffConversionsFound(contract: TypeDesc, t: TypeDesc, implicitAttribute: AttributeType)
    ensures var p := BuildProxyInfo(contract, t, implicitAttribute);
      StubReturnTypes(p.foundExplicitConversions + p.foundImplicitConversions).Ok? <==>
      AllConversionsFound(GetOperators(t), ExplicitRequirements(contract), ExplicitName) &&
      AllConversionsFound(GetOperators(t), ImplicitRequirements(contract, implicitAttribute), ImplicitName)
  {
    var p := BuildProxyInfo(contract, t, implicitAttribute);
    AllBoundConcat(p.foundExplicitConversions, p.foundImplicitConversions);
    BindAllFound(GetOperators(t), p.requiredExplicitConversions, ExplicitName);
    BindAllFound(GetOperators(t), p.requiredImplicitConversions, ImplicitName);
  }

  /** A valid ProxyInfo yields conversion stubs without a null dereference. */
  lemma ValidInfoBuildsStubs(p: ProxyInfo)
    requires IsValid(p)
    ensures StubReturnTypes(p.foundExplicitConversions + p.foundImplicitConversions).Ok?
  {
    AllBoundConcat(p.foundExplicitConversions, p.foundImplicitConversions);
  }
}
