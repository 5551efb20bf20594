/**
 * Contracts/ContractProvider: checks whether an object's type satisfies an interface contract
 * and wraps the object in a proxy type implementing the contract. Proxy types are cached per
 * (type, contract) pair and pairs that matched are remembered as satisfied.
 */
module ContractProviders {
  import opened Wrappers
  import opened Reflection
  import opened ProxyInfos
  import opened ContractMatching
  import opened ContractCache

  class ContractProvider {
    /** Reflection over the types of the program (GetMethods, IsInterface, IsPublic). */
    const describe: ClrType -> TypeDesc
    /** _contractToProxyDictionary. */
    var contractToProxy: map<Key, ClrType>
    /** _knownSatisfiedContracts. */
    var knownSatisfied: set<Key>
    /** Stands for Guid.NewGuid(): the serial of the next proxy type to be emitted. */
    var nextProxy: nat

    /**
     * Every pair with a proxy type is known to be satisfied, every known pair does satisfy its
     * contract, and the proxy types are distinct types emitted by this provider.
     */
    ghost predicate Valid()
      reads this
    {
      CacheConsistent() && KnownAreSatisfied()
    }

    /** The proxy cache covers only known pairs and holds distinct proxy types. */
    ghost predicate CacheConsistent()
      reads this
    {
      contractToProxy.Keys <= knownSatisfied && ProxiesFresh(contractToProxy, nextProxy)
    }

    /** Every pair recorded as satisfied passes the guards and has a valid ProxyInfo. */
    ghost predicate KnownAreSatisfied()
      reads this`knownSatisfied
    {
      AllAccepted(describe, ValidityTest, knownSatisfied)
    }

    constructor (describe: ClrType -> TypeDesc)
      ensures Valid()
      ensures this.describe == describe
      ensures contractToProxy == map[] && knownSatisfied == {} && nextProxy == 0
    {
      this.describe := describe;
      contractToProxy := map[];
      knownSatisfied := {};
      nextProxy := 0;
    }

    /** GetProxyTypeOrNull: the cached proxy type of the pair, or null. */
    function GetProxyTypeOrNull(t: ClrType, contract: ClrType): (r: Option<ClrType>)
      reads this
      ensures r.Some? <==> (t, contract) in contractToProxy
      ensures r.Some? ==> r.value == contractToProxy[(t, contract)]
    {
      if (t, contract) in contractToProxy then Some(contractToProxy[(t, contract)]) else None
    }

    /**
     * The private CheckIfSatisfies(type, alwaysGiveProxyInfo). Its answer is CheckOutcome of
     * the caches before the call; the only change is that a freshly accepted pair becomes known.
     */
    method CheckIfSatisfies(t: ClrType, contract: ClrType, alwaysGiveProxyInfo: bool) returns (r: Result<Check>)
      requires Valid()
      modifies this`contractToProxy, this`knownSatisfied, this`nextProxy
      ensures Valid()
      ensures r == CheckOutcome(describe, ValidityTest, old(contractToProxy), old(knownSatisfied), t, contract,
                                alwaysGiveProxyInfo)
      ensures contractToProxy == old(contractToProxy) && nextProxy == old(nextProxy)
      ensures knownSatisfied == if Records(r) then old(knownSatisfied) + {(t, contract)} else old(knownSatisfied)
    {
      var c := describe(contract);
      var d := describe(t);
      if !c.isInterface { return Err(NotSupported); }
      if !c.isPublic { return Err(NotSupported); }
      if !d.isPublic { return Err(NotSupported); }
      var combination := (t, contract);
      var proxy := GetProxyTypeOrNull(t, contract);
      if proxy.Some? {
        return Ok(Check(true, proxy, None));
      }
      if !alwaysGiveProxyInfo && combination in knownSatisfied {
        return Ok(Check(true, None, None));
      }
      var check := MatchAndRecord(t, contract);
      return Ok(check);
    }

    /**
     * The ProxyInfo built for the pair and its IsValid: valid exactly when the type
     * structurally satisfies the contract.
     */
    method Match(t: ClrType, contract: ClrType) returns (info: ProxyInfo, valid: bool)
      ensures info == FreshInfo(describe, t, contract)
      ensures valid <==> StructurallySatisfies(describe(contract), describe(t), ImplicitConversionAttribute)
    {
      info := BuildProxyInfo(describe(contract), describe(t), ImplicitConversionAttribute);
      valid := IsValid(info);
      BuiltInfoValidIff(describe(contract), describe(t), ImplicitConversionAttribute);
    }

    /**
     * The fresh match of CheckIfSatisfies: reject the pair unless its ProxyInfo is valid, and
     * otherwise record it as known to be satisfied.
     */
    method MatchAndRecord(t: ClrType, contract: ClrType) returns (check: Check)
      requires Valid() && GuardsPass(describe(contract), describe(t))
      modifies this`contractToProxy, this`knownSatisfied, this`nextProxy
      ensures Valid()
      ensures check == FreshCheck(describe, ValidityTest, t, contract)
      ensures contractToProxy == old(contractToProxy) && nextProxy == old(nextProxy)
      ensures knownSatisfied == if check.satisfied then old(knownSatisfied) + {(t, contract)} else old(knownSatisfied)
    {
      var info, valid := Match(t, contract);
      if !valid {
        return Check(false, None, None);
      }
      Record((t, contract));
      return Check(true, None, Some(info));
    }

    /** _knownSatisfiedContracts.Add(combination) for a pair that satisfies its contract. */
    method Record(k: Key)
      requires Valid() && Accepted(describe, ValidityTest, k)
      modifies this`contractToProxy, this`knownSatisfied, this`nextProxy
      ensures Valid()
      ensures knownSatisfied == old(knownSatisfied) + {k}
      ensures contractToProxy == old(contractToProxy) && nextProxy == old(nextProxy)
    {
      RecordAccepted(describe, ValidityTest, knownSatisfied, k);
      CachedStayKnown(contractToProxy, knownSatisfied, k);
      knownSatisfied := knownSatisfied + {k};
    }

    /**
     * The public CheckIfSatisfies<TContract>(obj): NotSupportedException from the guards, and
     * otherwise whether the object's type structurally satisfies the contract, whatever the
     * caches held.
     */
    method CheckIfSatisfiesObject(obj: Object, contract: ClrType) returns (r: Result<bool>)
      requires Valid()
      modifies this`contractToProxy, this`knownSatisfied, this`nextProxy
      ensures Valid()
      ensures r.Err? <==> !GuardsPass(describe(contract), describe(obj.runtimeType))
      ensures r.Err? ==> r.error == NotSupported
      ensures r.Ok? ==> (r.value <==> StructurallySatisfies(describe(contract), describe(obj.runtimeType),
                                                            ImplicitConversionAttribute))
      ensures contractToProxy == old(contractToProxy) && nextProxy == old(nextProxy)
    {
      CachesAgreeWithMatching(describe, ValidityTest, contractToProxy, knownSatisfied, obj.runtimeType, contract, false);
      ValidityAcceptsSatisfied(describe, (obj.runtimeType, contract));
      var check := CheckIfSatisfies(obj.runtimeType, contract, false);
      if check.Err? {
        return Err(check.error);
      }
      return Ok(check.value.satisfied);
    }

    /** GenerateProxy: an instance of the proxy type around the object. */
    function GenerateProxy(obj: Object, proxyType: ClrType): (a: Adapter)
      ensures a.internalObject == obj && a.proxyType == proxyType
    {
      Adapter(proxyType, obj)
    }

    /**
     * The second half of CreateContractProxyFromObject: the stubs of a satisfied pair's
     * ProxyInfo, then CreateType and _contractToProxyDictionary.Add, so that a new proxy type,
     * distinct from every cached one, becomes the pair's proxy type.
     */
    method CreateProxy(obj: Object, contract: ClrType, info: ProxyInfo) returns (a: Adapter)
      requires CacheConsistent() && (obj.runtimeType, contract) in knownSatisfied
      requires (obj.runtimeType, contract) !in contractToProxy
      requires StructurallySatisfies(describe(contract), describe(obj.runtimeType), ImplicitConversionAttribute)
      requires info == FreshInfo(describe, obj.runtimeType, contract)
      modifies this`contractToProxy, this`nextProxy
      ensures CacheConsistent()
      ensures a == Adapter(Dynamic(old(nextProxy)), obj) && nextProxy == old(nextProxy) + 1
      ensures contractToProxy == old(contractToProxy)[(obj.runtimeType, contract) := a.proxyType]
      ensures forall k' :: k' in old(contractToProxy) ==> old(contractToProxy)[k'] != a.proxyType
    {
      var k := (obj.runtimeType, contract);
      // Every conversion is bound, so the stubs' x.Item2.ReturnType never dereferences null.
      SatisfiedInfoBuildsStubs(describe, obj.runtimeType, contract);
      var stubReturnTypes := StubReturnTypes(info.foundExplicitConversions + info.foundImplicitConversions).value;
      EmitKeepsFresh(contractToProxy, nextProxy, k);
      var proxyType := Dynamic(nextProxy);
      EmitStaysKnown(contractToProxy, knownSatisfied, k, proxyType);
      nextProxy := nextProxy + 1;
      contractToProxy := contractToProxy[k := proxyType];
      a := GenerateProxy(obj, proxyType);
    }

    /**
     * ConvertToContractInstance<TContract>(obj): NotSupportedException from the guards,
     * InvalidOperationException when the type does not satisfy the contract, and otherwise an
     * adapter around the object whose proxy type is the pair's cached one, emitted and cached
     * now if there was none.
     */
    method ConvertToContractInstance(obj: Object, contract: ClrType) returns (r: Result<Adapter>)
      requires Valid()
      modifies this`contractToProxy, this`knownSatisfied, this`nextProxy
      ensures Valid()
      ensures !GuardsPass(describe(contract), describe(obj.runtimeType)) ==> r == Err(NotSupported)
      ensures GuardsPass(describe(contract), describe(obj.runtimeType)) ==>
        (r.Ok? <==> StructurallySatisfies(describe(contract), describe(obj.runtimeType), ImplicitConversionAttribute))
      ensures r.Err? ==> r.error == NotSupported || r.error == InvalidOperation
      ensures var k := (obj.runtimeType, contract);
        r.Ok? ==> r.value.internalObject == obj && k in contractToProxy && r.value.proxyType == contractToProxy[k]
      ensures var k := (obj.runtimeType, contract);
        k in old(contractToProxy) || r.Err? ==> contractToProxy == old(contractToProxy) && nextProxy == old(nextProxy)
      ensures var k := (obj.runtimeType, contract);
        k !in old(contractToProxy) && r.Ok? ==>
          contractToProxy == old(contractToProxy)[k := Dynamic(old(nextProxy))] && nextProxy == old(nextProxy) + 1
      ensures knownSatisfied == if r.Ok? then old(knownSatisfied) + {(obj.runtimeType, contract)} else old(knownSatisfied)
    {
      ProxyWantedOutcome(describe, ValidityTest, contractToProxy, knownSatisfied, obj.runtimeType, contract);
      ghost var proxies := contractToProxy;
      ghost var known := knownSatisfied;
      var check := CheckIfSatisfies(obj.runtimeType, contract, true);
      r := AdapterFor(obj, contract, check);
      if r.Ok? && check.value.proxy.Some? {
        CachedAlreadyKnown(proxies, known, (obj.runtimeType, contract));
      }
    }

    /**
     * The rest of CreateContractProxyFromObject, given the outcome of the check: its exception,
     * InvalidOperationException for an unsatisfied pair, an adapter of the cached proxy type,
     * or one of a proxy type emitted and cached now. The set of known pairs is not touched.
     */
    method AdapterFor(obj: Object, contract: ClrType, check: Result<Check>) returns (r: Result<Adapter>)
      requires Valid()
      requires var guards := GuardsPass(describe(contract), describe(obj.runtimeType));
        (check.Err? <==> !guards) && (check.Err? ==> check.error == NotSupported)
      requires var k := (obj.runtimeType, contract);
        check.Ok? ==> (check.value.proxy.Some? <==> k in contractToProxy) &&
                      (check.value.proxy.Some? ==> check.value.proxy.value == contractToProxy[k])
      requires var k := (obj.runtimeType, contract);
        check.Ok? && check.value.satisfied ==> k in knownSatisfied
      requires check.Ok? && check.value.satisfied && check.value.proxy.None? ==>
        check.value.info == Some(FreshInfo(describe, obj.runtimeType, contract))
      modifies this`contractToProxy, this`nextProxy
      ensures Valid()
      ensures r.Ok? <==> check.Ok? && check.value.satisfied
      ensures check.Err? ==> r == Err(check.error)
      ensures check.Ok? && !check.value.satisfied ==> r == Err(InvalidOperation)
      ensures var k := (obj.runtimeType, contract);
        r.Ok? ==> r.value.internalObject == obj && k in contractToProxy && r.value.proxyType == contractToProxy[k]
      ensures var k := (obj.runtimeType, contract);
        k in old(contractToProxy) || r.Err? ==> contractToProxy == old(contractToProxy) && nextProxy == old(nextProxy)
      ensures var k := (obj.runtimeType, contract);
        k !in old(contractToProxy) && r.Ok? ==>
          contractToProxy == old(contractToProxy)[k := Dynamic(old(nextProxy))] && nextProxy == old(nextProxy) + 1
    {
      if check.Err? {
        return Err(check.error);
      }
      if !check.value.satisfied {
        return Err(InvalidOperation);
      }
      if check.value.proxy.Some? {
        return Ok(GenerateProxy(obj, check.value.proxy.value));
      }
      var a := EmitAdapter(obj, contract, check.value.info.value);
      r := Ok(a);
    }

    /** CreateProxy for a known pair without a proxy type, keeping the invariant. */
    method EmitAdapter(obj: Object, contract: ClrType, info: ProxyInfo) returns (a: Adapter)
      requires Valid() && (obj.runtimeType, contract) in knownSatisfied
      requires (obj.runtimeType, contract) !in contractToProxy
      requires info == FreshInfo(describe, obj.runtimeType, contract)
      modifies this`contractToProxy, this`nextProxy
      ensures Valid()
      ensures a == Adapter(Dynamic(old(nextProxy)), obj) && nextProxy == old(nextProxy) + 1
      ensures contractToProxy == old(contractToProxy)[(obj.runtimeType, contract) := a.proxyType]
    {
      KnownIsAccepted(describe, ValidityTest, knownSatisfied, obj.runtimeType, contract);
      a := CreateProxy(obj, contract, info);
    }
  }
}
