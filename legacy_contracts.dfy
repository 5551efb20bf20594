/**
 * The root-namespace RuntimeContractExtensions, the oldest contract checker: ToContract builds
 * the proxy's stubs directly, without a satisfaction check, so a missing or ambiguous
 * implementation surfaces as the exception its lookup throws. Only proxy types are cached.
 */
module LegacyContracts {
  import opened Wrappers
  import opened Linq
  import opened Reflection
  import opened Operators
  import opened ProxyInfos
  import opened ContractMatching
  import opened ContractCache
  import RuntimeContracts

  // ---- the lookups of CreateContractProxyFromObject ----

  /** The conversion requirement has exactly one operator of its return type with the operator name. */
  predicate UniqueConversion(operators: seq<Method>, required: Method, operatorName: string)
  {
    |ConversionCandidates(operators, required, operatorName)| == 1
  }

  /** UniqueConversion as a predicate on requirements. */
  function UniqueFor(operators: seq<Method>, operatorName: string): (f: Method -> bool)
    ensures forall m :: f(m) == UniqueConversion(operators, m, operatorName)
  {
    (m: Method) => UniqueConversion(operators, m, operatorName)
  }

  /** Every conversion requirement has exactly one operator. */
  predicate AllUnique(operators: seq<Method>, required: seq<Method>, operatorName: string)
  {
    Every(required, UniqueFor(operators, operatorName))
  }

  /**
   * XConversionsToImplement.Select(x => (x.Name, conversions.Single())).ToList(): the cast
   * function of each requirement, InvalidOperationException when a requirement has none or
   * several.
   */
  function CastFunctions(operators: seq<Method>, required: seq<Method>, operatorName: string): (r: Result<seq<Method>>)
    ensures r.Ok? <==> AllUnique(operators, required, operatorName)
    ensures r.Err? ==> r.error == InvalidOperation
    ensures r.Ok? ==> (|r.value| == |required| &&
      forall i :: 0 <= i < |required| ==> ConversionCandidates(operators, required[i], operatorName) == [r.value[i]])
    decreases |required|
  {
    if required == [] then Ok([])
    else
      var head := Single(ConversionCandidates(operators, required[0], operatorName));
      var tail := CastFunctions(operators, required[1..], operatorName);
      AllUniqueCons(operators, required, operatorName);
      if head.Err? then Err(InvalidOperation)
      else if tail.Err? then Err(InvalidOperation)
      else
        CastsCons(operators, required, operatorName, head.value, tail.value);
        Ok([head.value] + tail.value)
  }

  lemma AllUniqueCons(operators: seq<Method>, required: seq<Method>, operatorName: string)
    requires required != []
    ensures AllUnique(operators, required, operatorName) <==>
            UniqueConversion(operators, required[0], operatorName) && AllUnique(operators, required[1..], operatorName)
  {
    EveryCons(required, UniqueFor(operators, operatorName));
  }

  lemma CastsCons(operators: seq<Method>, required: seq<Method>, operatorName: string, cast: Method, rest: seq<Method>)
    requires required != []
    requires ConversionCandidates(operators, required[0], operatorName) == [cast]
    requires |rest| == |required| - 1
    requires forall i :: 0 <= i < |required| - 1 ==> ConversionCandidates(operators, required[1..][i], operatorName) == [rest[i]]
    ensures forall i :: 0 <= i < |required| ==> ConversionCandidates(operators, required[i], operatorName) == [([cast] + rest)[i]]
  {
    forall i | 0 <= i < |required| ensures ConversionCandidates(operators, required[i], operatorName) == [([cast] + rest)[i]] {
      if i > 0 { assert required[i] == required[1..][i - 1]; }
    }
  }

  /**
   * actualMethodsForThisObject.Select(x => x.Name ...): the methods the regular stubs forward
   * to, NullReferenceException at the first method GetMethod did not find.
   */
  function ForwardTargets(found: seq<Option<Method>>): (r: Result<seq<Method>>)
    ensures r.Ok? <==> NoNullMethods(found)
    ensures r.Err? ==> r.error == NullReference
    ensures r.Ok? ==> (|r.value| == |found| && forall i :: 0 <= i < |found| ==> found[i] == Some(r.value[i]))
    decreases |found|
  {
    if found == [] then Ok([])
    else if found[0].None? then Err(NullReference)
    else
      match ForwardTargets(found[1..])
      case Err(e) => Err(e)
      case Ok(rest) => Ok([found[0].value] + rest)
  }

  /** The methods the proxy's stubs call: regular methods, explicit and implicit cast functions. */
  datatype Stubs = Stubs(methods: seq<Method>, explicitCasts: seq<Method>, implicitCasts: seq<Method>)

  /**
   * The legacy acceptance test: every regular requirement is found by name and parameter
   * types, and every conversion requirement has exactly one operator.
   */
  predicate LegacySatisfies(contract: TypeDesc, t: TypeDesc)
  {
    && AllMethodsFound(t, RegularRequirements(contract, RootImplicitConversionAttribute))
    && AllUnique(GetOperators(t), ExplicitRequirements(contract), ExplicitName)
    && AllUnique(GetOperators(t), ImplicitRequirements(contract, RootImplicitConversionAttribute), ImplicitName)
  }

  /**
   * Building the stubs in source order: the explicit cast functions (ToList forces them), then
   * the implicit ones, then the regular stubs, which dereference the looked-up methods.
   */
  function BuildStubs(contract: TypeDesc, t: TypeDesc): (r: Result<Stubs>)
    ensures r.Ok? <==> LegacySatisfies(contract, t)
    ensures r.Err? ==> (r.error == InvalidOperation || r.error == NullReference)
    ensures r.Err? ==> (r.error == InvalidOperation <==>
      !(AllUnique(GetOperators(t), ExplicitRequirements(contract), ExplicitName) &&
        AllUnique(GetOperators(t), ImplicitRequirements(contract, RootImplicitConversionAttribute), ImplicitName)))
    ensures r.Ok? ==> StubsImplement(r.value, contract, t)
  {
    var regular := RegularRequirements(contract, RootImplicitConversionAttribute);
    var operators := GetOperators(t);
    LookUpAllFound(t, regular);
    match CastFunctions(operators, ExplicitRequirements(contract), ExplicitName)
    case Err(e) => Err(e)
    case Ok(explicitCasts) =>
      match CastFunctions(operators, ImplicitRequirements(contract, RootImplicitConversionAttribute), ImplicitName)
      case Err(e) => Err(e)
      case Ok(implicitCasts) =>
        match ForwardTargets(LookUpMethods(t, regular))
        case Err(e) => Err(e)
        case Ok(methods) => Ok(Stubs(methods, explicitCasts, implicitCasts))
  }

  /**
   * One stub per requirement: the regular stubs forward to a public method of the type with
   * the required name and parameter types, and each cast stub calls the only operator of the
   * required return type with the operator name.
   */
  predicate StubsImplement(s: Stubs, contract: TypeDesc, t: TypeDesc)
  {
    var regular := RegularRequirements(contract, RootImplicitConversionAttribute);
    var explicit := ExplicitRequirements(contract);
    var implicit := ImplicitRequirements(contract, RootImplicitConversionAttribute);
    && |s.methods| == |regular| && |s.explicitCasts| == |explicit| && |s.implicitCasts| == |implicit|
    && (forall i :: 0 <= i < |regular| ==>
          s.methods[i] in PublicMethods(t) && s.methods[i].name == regular[i].name &&
          s.methods[i].parameters == regular[i].parameters)
    && (forall i :: 0 <= i < |explicit| ==>
          ConversionCandidates(GetOperators(t), explicit[i], ExplicitName) == [s.explicitCasts[i]])
    && (forall i :: 0 <= i < |implicit| ==>
          ConversionCandidates(GetOperators(t), implicit[i], ImplicitName) == [s.implicitCasts[i]])
  }

  // ---- how the legacy test relates to the newer one ----

  /** At most one operator of the requirement's return type has the operator name. */
  predicate NoAmbiguity(operators: seq<Method>, required: seq<Method>, operatorName: string)
  {
    forall i :: 0 <= i < |required| ==> |ConversionCandidates(operators, required[i], operatorName)| <= 1
  }

  /** Exactly one candidate each means a candidate each and no ambiguity. */
  lemma AllUniqueIff(operators: seq<Method>, required: seq<Method>, operatorName: string)
    ensures AllUnique(operators, required, operatorName) <==>
            AllConversionsFound(operators, required, operatorName) && NoAmbiguity(operators, required, operatorName)
  {
    forall i | 0 <= i < |required|
      ensures UniqueConversion(operators, required[i], operatorName) <==>
              ConversionFor(operators, required[i], operatorName).Some? &&
              |ConversionCandidates(operators, required[i], operatorName)| <= 1
    {
      var c := ConversionCandidates(operators, required[i], operatorName);
      assert c != [] ==> c[0] in c;
    }
  }

  /**
   * The legacy test is the structural test (with the root ImplicitConversionAttribute) plus
   * the demand that no conversion requirement is ambiguous.
   */
  lemma LegacyIsStructuralWithoutAmbiguity(contract: TypeDesc, t: TypeDesc)
    ensures LegacySatisfies(contract, t) <==>
      StructurallySatisfies(contract, t, RootImplicitConversionAttribute) &&
      NoAmbiguity(GetOperators(t), ExplicitRequirements(contract), ExplicitName) &&
      NoAmbiguity(GetOperators(t), ImplicitRequirements(contract, RootImplicitConversionAttribute), ImplicitName)
  {
    AllUniqueIff(GetOperators(t), ExplicitRequirements(contract), ExplicitName);
    AllUniqueIff(GetOperators(t), ImplicitRequirements(contract, RootImplicitConversionAttribute), ImplicitName);
  }

  /**
   * A public struct S with two operators `explicit operator int`, one from S and one from S?
   * (both legal C#, since each converts from the enclosing type once Nullable is removed),
   * against the contract with one explicit conversion to int.
   */
  const TwoCastsToken := Named(3)
  /** typeof(Nullable<S>). */
  const NullableTwoCastsToken := Named(4)

  function CastFrom(source: ClrType): Method
  {
    MethodMember(TwoCastsToken, "op_Explicit", true, true, [], [source], Int32Type, true)
  }

  const TwoCastsType :=
    TypeDesc(TwoCastsToken, false, true, true, [], [CastFrom(TwoCastsToken), CastFrom(NullableTwoCastsToken)], [])

  /** Under either ImplicitConversionAttribute the contract asks for the conversion alone. */
  lemma ConvertibleContractRequirements(implicitAttribute: AttributeType)
    requires implicitAttribute != ExplicitConversionAttribute
    ensures RegularRequirements(RuntimeContracts.ConvertibleContract, implicitAttribute) == []
    ensures ExplicitRequirements(RuntimeContracts.ConvertibleContract) == [RuntimeContracts.ToIntConversion]
    ensures ImplicitRequirements(RuntimeContracts.ConvertibleContract, implicitAttribute) == []
  {
    var contract := RuntimeContracts.ConvertibleContract;
    var m := RuntimeContracts.ToIntConversion;
    assert PublicMethods(contract) == [m] by {
      assert GetMembers(contract, DefaultLookup) == [m];
    }
    assert HasAttribute(m.attributes, ExplicitConversionAttribute) by {
      assert m.attributes[0].attributeType == ExplicitConversionAttribute;
    }
    assert !HasAttribute(m.attributes, implicitAttribute);
    var regular := RegularRequirements(contract, implicitAttribute);
    assert regular == [] by {
      assert m !in regular;
    }
    var implicit := ImplicitRequirements(contract, implicitAttribute);
    assert implicit == [] by {
      assert m !in implicit;
    }
    var explicit := ExplicitRequirements(contract);
    assert explicit == [m] by {
      assert m in explicit;
      assert |explicit| <= |PublicMethods(contract)|;
      assert explicit[0] in PublicMethods(contract);
    }
  }

  /** Both casts are candidates for the conversion. */
  lemma TwoCastsCandidates()
    ensures CastFrom(TwoCastsToken) in ConversionCandidates(GetOperators(TwoCastsType), RuntimeContracts.ToIntConversion, ExplicitName)
    ensures CastFrom(NullableTwoCastsToken) in ConversionCandidates(GetOperators(TwoCastsType), RuntimeContracts.ToIntConversion, ExplicitName)
  {
    var a: Member, b: Member := CastFrom(TwoCastsToken), CastFrom(NullableTwoCastsToken);
    assert PublicMethods(TwoCastsType) == [a, b] by {
      FilterPair(a, b, m => Selects(DefaultLookup, m));
      FilterPair(a, b, (m: Member) => m.MethodMember?);
      assert GetMembers(TwoCastsType, DefaultLookup) == [a, b];
    }
    assert StartsWith(ExplicitName, OperatorPrefix);
  }

  /** The conversion to int has two candidates on TwoCastsType. */
  lemma TwoCastsAmbiguous()
    ensures !UniqueConversion(GetOperators(TwoCastsType), RuntimeContracts.ToIntConversion, ExplicitName)
  {
    TwoCastsCandidates();
    var c := ConversionCandidates(GetOperators(TwoCastsType), RuntimeContracts.ToIntConversion, ExplicitName);
    assert CastFrom(TwoCastsToken) != CastFrom(NullableTwoCastsToken);
  }

  /** The newer test accepts TwoCastsType under either ImplicitConversionAttribute. */
  lemma TwoCastsSatisfiesStructurally(implicitAttribute: AttributeType)
    requires implicitAttribute != ExplicitConversionAttribute
    ensures StructurallySatisfies(RuntimeContracts.ConvertibleContract, TwoCastsType, implicitAttribute)
  {
    ConvertibleContractRequirements(implicitAttribute);
    TwoCastsCandidates();
    var operators := GetOperators(TwoCastsType);
    var m := RuntimeContracts.ToIntConversion;
    SingleConversionFound(operators, m, ExplicitName, CastFrom(TwoCastsToken));
  }

  /** A candidate for the one required conversion is enough to find it. */
  lemma SingleConversionFound(operators: seq<Method>, required: Method, operatorName: string, candidate: Method)
    requires candidate in ConversionCandidates(operators, required, operatorName)
    ensures AllConversionsFound(operators, [required], operatorName)
  {
    assert ConversionFor(operators, required, operatorName).Some?;
  }

  /** The legacy test rejects TwoCastsType, and building its stubs throws from Single. */
  lemma LegacyRejectsTwoCasts()
    ensures !LegacySatisfies(RuntimeContracts.ConvertibleContract, TwoCastsType)
    ensures BuildStubs(RuntimeContracts.ConvertibleContract, TwoCastsType) == Err(InvalidOperation)
  {
    ConvertibleContractRequirements(RootImplicitConversionAttribute);
    TwoCastsAmbiguous();
    var explicit := ExplicitRequirements(RuntimeContracts.ConvertibleContract);
    assert !UniqueFor(GetOperators(TwoCastsType), ExplicitName)(explicit[0]);
    assert !AllUnique(GetOperators(TwoCastsType), explicit, ExplicitName);
  }

  /**
   * The newer checkers take the first of several matching operators, while the legacy lookup
   * throws InvalidOperationException from Single.
   */
  lemma AmbiguousConversionRejectedByLegacy()
    ensures GuardsPass(RuntimeContracts.ConvertibleContract, TwoCastsType)
    ensures StructurallySatisfies(RuntimeContracts.ConvertibleContract, TwoCastsType, ImplicitConversionAttribute)
    ensures StructurallySatisfies(RuntimeContracts.ConvertibleContract, TwoCastsType, RootImplicitConversionAttribute)
    ensures !LegacySatisfies(RuntimeContracts.ConvertibleContract, TwoCastsType)
    ensures BuildStubs(RuntimeContracts.ConvertibleContract, TwoCastsType) == Err(InvalidOperation)
  {
    TwoCastsSatisfiesStructurally(ImplicitConversionAttribute);
    TwoCastsSatisfiesStructurally(RootImplicitConversionAttribute);
    LegacyRejectsTwoCasts();
  }

  /** The pair is cacheable: the guards pass and the legacy test accepts it. */
  ghost predicate LegacyAccepted(describe: ClrType -> TypeDesc, k: Key)
  {
    GuardsPass(describe(k.1), describe(k.0)) && LegacySatisfies(describe(k.1), describe(k.0))
  }

  ghost predicate AllLegacyAccepted(describe: ClrType -> TypeDesc, proxies: map<Key, ClrType>)
  {
    forall k :: k in proxies ==> LegacyAccepted(describe, k)
  }

  lemma AddLegacyAccepted(describe: ClrType -> TypeDesc, proxies: map<Key, ClrType>, k: Key, p: ClrType)
    requires AllLegacyAccepted(describe, proxies) && LegacyAccepted(describe, k)
    ensures AllLegacyAccepted(describe, proxies[k := p])
  {
  }

  // ---- the static proxy cache ----

  /** The static state of the class: ContractToProxyDictionary and the source of fresh names. */
  class LegacyContractExtensions {
    /** Reflection over the types of the program (GetMethods, IsInterface, IsPublic). */
    const describe: ClrType -> TypeDesc
    /** ContractToProxyDictionary. */
    var contractToProxy: map<Key, ClrType>
    /** Stands for Guid.NewGuid(): the serial of the next proxy type to be emitted. */
    var nextProxy: nat

    /** The cached proxy types are distinct emitted types, each for a pair the lookups accepted. */
    ghost predicate Valid()
      reads this
    {
      ProxiesFresh(contractToProxy, nextProxy) && CachedAreAccepted()
    }

    ghost predicate CachedAreAccepted()
      reads this`contractToProxy
    {
      AllLegacyAccepted(describe, contractToProxy)
    }

    /** The static initialiser: the cache starts empty. */
    constructor (describe: ClrType -> TypeDesc)
      ensures Valid()
      ensures this.describe == describe
      ensures contractToProxy == map[] && nextProxy == 0
    {
      this.describe := describe;
      contractToProxy := map[];
      nextProxy := 0;
    }

    /** GenerateProxy(obj, combination): an instance of the pair's cached proxy type around the object. */
    function GenerateProxy(obj: Object, k: Key): (a: Adapter)
      requires k in contractToProxy
      reads this`contractToProxy
      ensures a.internalObject == obj && a.proxyType == contractToProxy[k]
    {
      Adapter(contractToProxy[k], obj)
    }

    /**
     * ToContract<TContract>(obj), which is CreateContractProxyFromObject: NotSupportedException
     * from the guards; the cached proxy type when there is one; otherwise the exception of the
     * first failing lookup (InvalidOperationException from Single, then NullReferenceException
     * from a missing method), or an adapter of a new proxy type, cached under the pair.
     */
    method ToContract(obj: Object, contract: ClrType) returns (r: Result<Adapter>)
      requires Valid()
      modifies this`contractToProxy, this`nextProxy
      ensures Valid()
      ensures !GuardsPass(describe(contract), describe(obj.runtimeType)) ==> r == Err(NotSupported)
      ensures GuardsPass(describe(contract), describe(obj.runtimeType)) ==>
        (r.Ok? <==> LegacySatisfies(describe(contract), describe(obj.runtimeType)))
      ensures var k := (obj.runtimeType, contract);
        GuardsPass(describe(contract), describe(obj.runtimeType)) && k !in old(contractToProxy) ==>
          (r.Err? ==> r == Err(BuildStubs(describe(contract), describe(obj.runtimeType)).error))
      ensures var k := (obj.runtimeType, contract);
        r.Ok? ==> r.value.internalObject == obj && k in contractToProxy && r.value.proxyType == contractToProxy[k]
      ensures var k := (obj.runtimeType, contract);
        k in old(contractToProxy) || r.Err? ==> contractToProxy == old(contractToProxy) && nextProxy == old(nextProxy)
      ensures var k := (obj.runtimeType, contract);
        k !in old(contractToProxy) && r.Ok? ==>
          contractToProxy == old(contractToProxy)[k := Dynamic(old(nextProxy))] && nextProxy == old(nextProxy) + 1
    {
      var c := describe(contract);
      var d := describe(obj.runtimeType);
      if !c.isInterface { return Err(NotSupported); }
      if !c.isPublic { return Err(NotSupported); }
      if !d.isPublic { return Err(NotSupported); }
      var k := (obj.runtimeType, contract);
      if k in contractToProxy {
        return Ok(GenerateProxy(obj, k));
      }
      r := CreateProxy(obj, contract);
    }

    /**
     * The rest of CreateContractProxyFromObject for an uncached pair: the stubs, then
     * CreateType and ContractToProxyDictionary.Add; a failing lookup leaves the cache as it was.
     */
    method CreateProxy(obj: Object, contract: ClrType) returns (r: Result<Adapter>)
      requires Valid() && GuardsPass(describe(contract), describe(obj.runtimeType))
      requires (obj.runtimeType, contract) !in contractToProxy
      modifies this`contractToProxy, this`nextProxy
      ensures Valid()
      ensures var stubs := BuildStubs(describe(contract), describe(obj.runtimeType));
        stubs.Err? ==> r == Err(stubs.error) && contractToProxy == old(contractToProxy) && nextProxy == old(nextProxy)
      ensures var stubs := BuildStubs(describe(contract), describe(obj.runtimeType));
        stubs.Ok? ==> (r == Ok(Adapter(Dynamic(old(nextProxy)), obj)) &&
          contractToProxy == old(contractToProxy)[(obj.runtimeType, contract) := Dynamic(old(nextProxy))] &&
          nextProxy == old(nextProxy) + 1)
    {
      var k := (obj.runtimeType, contract);
      var stubs := BuildStubs(describe(contract), describe(obj.runtimeType));
      if stubs.Err? {
        return Err(stubs.error);
      }
      var proxyType := Dynamic(nextProxy);
      EmitKeepsFresh(contractToProxy, nextProxy, k);
      AddLegacyAccepted(describe, contractToProxy, k, proxyType);
      nextProxy := nextProxy + 1;
      contractToProxy := contractToProxy[k := proxyType];
      return Ok(GenerateProxy(obj, k));
    }
  }
}
