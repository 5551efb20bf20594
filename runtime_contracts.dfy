/**
 * Contracts/RuntimeContractExtensions: the static ToContract and Satisfies extension methods,
 * with the same two caches as ContractProvider but their own acceptance test, which compares
 * the counts of the Required and Found lists after dropping nulls from the Found lists.
 */
module RuntimeContracts {
  import opened Wrappers
  import opened Linq
  import opened Reflection
  import opened Operators
  import opened ProxyInfos
  import opened ContractMatching
  import opened ContractCache

  // ---- the acceptance test as written (CountsMatchAsWritten) ----

  /** A contract with a single explicit conversion to int, and a public type with no members. */
  const ToIntConversion: Method :=
    MethodMember(Named(1), "ToInt", false, true, [Attribute(ExplicitConversionAttribute, None)], [], Int32Type, false)
  const ConvertibleContract := TypeDesc(Named(1), true, true, false, [], [ToIntConversion], [])
  const PlainType := TypeDesc(Named(2), false, true, false, [], [], [])

  lemma PlainTypeInfo()
    ensures var p := BuildProxyInfo(ConvertibleContract, PlainType, ImplicitConversionAttribute);
      p.requiredMethods == [] && p.foundMethods == [] && p.requiredImplicitConversions == [] &&
      p.foundImplicitConversions == [] && p.requiredExplicitConversions == [ToIntConversion] &&
      p.foundExplicitConversions == [Binding("ToInt", None)]
  {
    var operators := GetOperators(PlainType);
    assert PublicMethods(PlainType) == [];
    assert operators == [];
    assert PublicMethods(ConvertibleContract) == [ToIntConversion] by {
      assert GetMembers(ConvertibleContract, DefaultLookup) == [ToIntConversion];
    }
    assert HasAttribute(ToIntConversion.attributes, ExplicitConversionAttribute) by {
      assert ToIntConversion.attributes[0].attributeType == ExplicitConversionAttribute;
    }
    var regular := RegularRequirements(ConvertibleContract, ImplicitConversionAttribute);
    assert regular == [] by {
      assert ToIntConversion !in regular;
    }
    var implicit := ImplicitRequirements(ConvertibleContract, ImplicitConversionAttribute);
    assert implicit == [] by {
      assert !HasAttribute(ToIntConversion.attributes, ImplicitConversionAttribute);
      assert ToIntConversion !in implicit;
    }
    var explicit := ExplicitRequirements(ConvertibleContract);
    assert explicit == [ToIntConversion] by {
      assert ToIntConversion in explicit;
      assert |explicit| <= |PublicMethods(ConvertibleContract)|;
      assert explicit[0] in PublicMethods(ConvertibleContract);
    }
    assert ConversionFor(operators, ToIntConversion, ExplicitName) == None;
  }

  /** The type passes the guards and the count comparison as written. */
  lemma PlainTypePassesAsWritten()
    ensures GuardsPass(ConvertibleContract, PlainType)
    ensures CountsMatchAsWritten(BuildProxyInfo(ConvertibleContract, PlainType, ImplicitConversionAttribute))
  {
    PlainTypeInfo();
  }

  /** The type lacks the explicit conversion. */
  lemma PlainTypeLacksConversion()
    ensures !StructurallySatisfies(ConvertibleContract, PlainType, ImplicitConversionAttribute)
  {
    PlainTypeInfo();
    var p := BuildProxyInfo(ConvertibleContract, PlainType, ImplicitConversionAttribute);
    BindAllFound(GetOperators(PlainType), p.requiredExplicitConversions, ExplicitName);
    assert !AllBound(p.foundExplicitConversions) by {
      assert p.foundExplicitConversions[0].target.None?;
    }
  }

  /** Building the conversion stub for the type dereferences the missing method. */
  lemma PlainTypeStubDereferencesNull()
    ensures var p := BuildProxyInfo(ConvertibleContract, PlainType, ImplicitConversionAttribute);
      StubReturnTypes(p.foundExplicitConversions + p.foundImplicitConversions) == Err(NullReference)
  {
    PlainTypeInfo();
    var p := BuildProxyInfo(ConvertibleContract, PlainType, ImplicitConversionAttribute);
    assert p.foundExplicitConversions + p.foundImplicitConversions == [Binding("ToInt", None)];
  }

  /**
   * The discrepancy: the type passes the test as written although it lacks the conversion, and
   * ToContract then dereferences the missing method when it builds the conversion stub.
   */
  lemma AsWrittenAcceptsMissingConversion()
    ensures GuardsPass(ConvertibleContract, PlainType)
    ensures CountsMatchAsWritten(BuildProxyInfo(ConvertibleContract, PlainType, ImplicitConversionAttribute))
    ensures !StructurallySatisfies(ConvertibleContract, PlainType, ImplicitConversionAttribute)
    ensures var p := BuildProxyInfo(ConvertibleContract, PlainType, ImplicitConversionAttribute);
      StubReturnTypes(p.foundExplicitConversions + p.foundImplicitConversions) == Err(NullReference)
  {
    PlainTypePassesAsWritten();
    PlainTypeLacksConversion();
    PlainTypeStubDereferencesNull();
  }

  // ---- the acceptance test as intended ----

  /** Except(x => x.Item2 == null): the tuples whose method was found, in order. */
  function DropUnbound(bindings: seq<Binding>): (r: seq<Binding>)
    ensures AllBound(r)
    ensures |r| == |bindings| <==> AllBound(bindings)
    ensures forall b :: b in r <==> b in bindings && b.target.Some?
  {
    var r := Filter(bindings, IsBound());
    FilterKeepsAll(bindings, IsBound());
    assert forall i :: 0 <= i < |r| ==> r[i] in r;
    r
  }

  function IsBound(): (f: Binding -> bool)
    ensures forall b :: f(b) == b.target.Some?
  {
    (b: Binding) => b.target.Some?
  }

  /** The count comparison with the unmatched conversion tuples dropped as well as the null methods. */
  predicate CorrectedCountsMatch(p: ProxyInfo)
  {
    && |p.requiredMethods| == |p.foundMethods|
    && |p.requiredExplicitConversions| == |DropUnbound(p.foundExplicitConversions)|
    && |p.requiredImplicitConversions| == |DropUnbound(p.foundImplicitConversions)|
  }

  /** The corrected test accepts exactly the types that structurally satisfy the contract. */
  lemma CorrectedIffSatisfies(contract: TypeDesc, t: TypeDesc)
    ensures CorrectedCountsMatch(BuildProxyInfo(contract, t, ImplicitConversionAttribute)) <==>
            StructurallySatisfies(contract, t, ImplicitConversionAttribute)
  {
    var p := BuildProxyInfo(contract, t, ImplicitConversionAttribute);
    LookUpAllFound(t, p.requiredMethods);
    BindAllFound(GetOperators(t), p.requiredExplicitConversions, ExplicitName);
    BindAllFound(GetOperators(t), p.requiredImplicitConversions, ImplicitName);
  }

  /** The corrected test agrees with ProxyInfo.IsValid on every ProxyInfo the checker builds. */
  lemma CorrectedAgreesWithIsValid(contract: TypeDesc, t: TypeDesc)
    ensures CorrectedCountsMatch(BuildProxyInfo(contract, t, ImplicitConversionAttribute)) <==>
            IsValid(BuildProxyInfo(contract, t, ImplicitConversionAttribute))
  {
    CorrectedIffSatisfies(contract, t);
    BuiltInfoValidIff(contract, t, ImplicitConversionAttribute);
  }

  // ---- the extension methods and their static caches ----

  /**
   * The static state of RuntimeContractExtensions: ContractToProxyDictionary,
   * KnownSatisfiedContracts and the source of fresh proxy type names. The acceptance test is
   * the one written at lines 138-141, CountTestAsWritten, which asks only for the regular
   * methods; a pair it accepts without its conversions is recorded as satisfied, and building
   * its proxy then dereferences the missing conversion.
   */
  class RuntimeContractExtensions {
    /** Reflection over the types of the program (GetMethods, IsInterface, IsPublic). */
    const describe: ClrType -> TypeDesc
    /** ContractToProxyDictionary. */
    var contractToProxy: map<Key, ClrType>
    /** KnownSatisfiedContracts. */
    var knownSatisfied: set<Key>
    /** Stands for Guid.NewGuid(): the serial of the next proxy type to be emitted. */
    var nextProxy: nat

    /**
     * Every pair with a proxy type is known and structurally satisfies its contract, every
     * known pair passes the test as written, and the proxy types are distinct types emitted here.
     */
    ghost predicate Valid()
      reads this
    {
      CacheConsistent() && KnownAreAccepted()
    }

    /** The proxy cache covers only known pairs that satisfy their contracts and holds distinct proxy types. */
    ghost predicate CacheConsistent()
      reads this
    {
      && contractToProxy.Keys <= knownSatisfied
      && AllSatisfied(describe, contractToProxy.Keys)
      && ProxiesFresh(contractToProxy, nextProxy)
    }

    /** Every pair recorded as satisfied passes the guards and the count test as written. */
    ghost predicate KnownAreAccepted()
      reads this`knownSatisfied
    {
      AllAccepted(describe, CountTestAsWritten, knownSatisfied)
    }

    /** The static initialisers: both caches start empty. */
    constructor (describe: ClrType -> TypeDesc)
      ensures Valid()
      ensures this.describe == describe
      ensures contractToProxy == map[] && knownSatisfied == {} && nextProxy == 0
    {
      this.describe := describe;
      contractToProxy := map[];
      knownSatisfied := {};
      nextProxy := 0;
    }

    /** GetProxyTypeOrNull: the cached proxy type of the pair, or null. */
    function GetProxyTypeOrNull(t: ClrType, contract: ClrType): (r: Option<ClrType>)
      reads this`contractToProxy
      ensures r.Some? <==> (t, contract) in contractToProxy
      ensures r.Some? ==> r.value == contractToProxy[(t, contract)]
    {
      if (t, contract) in contractToProxy then Some(contractToProxy[(t, contract)]) else None
    }

    /**
     * The private Satisfies<TContract>(type, alwaysGiveProxyInfo). Its answer is CheckOutcome
     * of the caches before the call under the count test as written; the only change is that
     * a freshly accepted pair becomes known.
     */
    method SatisfiesType(t: ClrType, contract: ClrType, alwaysGiveProxyInfo: bool) returns (r: Result<Check>)
      requires Valid()
      modifies this`contractToProxy, this`knownSatisfied, this`nextProxy
      ensures Valid()
      ensures r == CheckOutcome(describe, CountTestAsWritten, old(contractToProxy), old(knownSatisfied), t, contract,
                                alwaysGiveProxyInfo)
      ensures contractToProxy == old(contractToProxy) && nextProxy == old(nextProxy)
      ensures knownSatisfied == if Records(r) then old(knownSatisfied) + {(t, contract)} else old(knownSatisfied)
    {
      var c := describe(contract);
      var d := describe(t);
      if !c.isInterface { return Err(NotSupported); }
      if !c.isPublic { return Err(NotSupported); }
      if !d.isPublic { return Err(NotSupported); }
      var combination := (t, contract);
      var proxy := GetProxyTypeOrNull(t, contract);
      if proxy.Some? {
        return Ok(Check(true, proxy, None));
      }
      if !alwaysGiveProxyInfo && combination in knownSatisfied {
        return Ok(Check(true, None, None));
      }
      var check := MatchAndRecord(t, contract);
      return Ok(check);
    }

    /**
     * The ProxyInfo built for the pair and the count comparison at lines 138-141: the counts
     * match exactly when every regular method of the contract is found on the type.
     */
    method Match(t: ClrType, contract: ClrType) returns (info: ProxyInfo, countsMatch: bool)
      ensures info == FreshInfo(describe, t, contract)
      ensures countsMatch <==> AllMethodsFound(describe(t), RegularRequirements(describe(contract), ImplicitConversionAttribute))
    {
      info := BuildProxyInfo(describe(contract), describe(t), ImplicitConversionAttribute);
      countsMatch := CountsMatchAsWritten(info);
      AsWrittenChecksOnlyMethods(describe(contract), describe(t));
    }

    /**
     * The fresh match of Satisfies: reject the pair unless the counts match, and otherwise
     * record it as known to be satisfied.
     */
    method MatchAndRecord(t: ClrType, contract: ClrType) returns (check: Check)
      requires Valid() && GuardsPass(describe(contract), describe(t))
      modifies this`contractToProxy, this`knownSatisfied, this`nextProxy
      ensures Valid()
      ensures check == FreshCheck(describe, CountTestAsWritten, t, contract)
      ensures contractToProxy == old(contractToProxy) && nextProxy == old(nextProxy)
      ensures knownSatisfied == if check.satisfied then old(knownSatisfied) + {(t, contract)} else old(knownSatisfied)
    {
      var info, countsMatch := Match(t, contract);
      if !countsMatch {
        return Check(false, None, None);
      }
      Record((t, contract));
      return Check(true, None, Some(info));
    }

    /** KnownSatisfiedContracts.Add(combination) for a pair that passes the test as written. */
    method Record(k: Key)
      requires Valid() && Accepted(describe, CountTestAsWritten, k)
      modifies this`contractToProxy, this`knownSatisfied, this`nextProxy
      ensures Valid()
      ensures knownSatisfied == old(knownSatisfied) + {k}
      ensures contractToProxy == old(contractToProxy) && nextProxy == old(nextProxy)
    {
      RecordAccepted(describe, CountTestAsWritten, knownSatisfied, k);
      CachedStayKnown(contractToProxy, knownSatisfied, k);
      knownSatisfied := knownSatisfied + {k};
    }

    /**
     * The public Satisfies<TContract>(obj): NotSupportedException from the guards, and
     * otherwise whether every regular method of the contract is found on the object's type,
     * whatever the caches held; the contract's conversions are not examined.
     */
    method Satisfies(obj: Object, contract: ClrType) returns (r: Result<bool>)
      requires Valid()
      modifies this`contractToProxy, this`knownSatisfied, this`nextProxy
      ensures Valid()
      ensures r.Err? <==> !GuardsPass(describe(contract), describe(obj.runtimeType))
      ensures r.Err? ==> r.error == NotSupported
      ensures r.Ok? ==> (r.value <==> AllMethodsFound(describe(obj.runtimeType),
                                                      RegularRequirements(describe(contract), ImplicitConversionAttribute)))
      ensures contractToProxy == old(contractToProxy) && nextProxy == old(nextProxy)
    {
      CachesAgreeWithMatching(describe, CountTestAsWritten, contractToProxy, knownSatisfied, obj.runtimeType, contract, false);
      var check := SatisfiesType(obj.runtimeType, contract, false);
      if check.Err? {
        return Err(check.error);
      }
      return Ok(check.value.satisfied);
    }

    /** GenerateProxy: an instance of the proxy type whose InternalObject field is the object. */
    function GenerateProxy(obj: Object, proxyType: ClrType): (a: Adapter)
      ensures a.internalObject == obj && a.proxyType == proxyType
    {
      Adapter(proxyType, obj)
    }

    /**
     * The second half of CreateContractProxyFromObject for an uncached known pair, given the
     * outcome of its conversion stubs: a new Guid, then CreateType and
     * ContractToProxyDictionary.Add. When the stubs dereferenced null (line 190) the
     * NullReferenceException propagates after the Guid was drawn; otherwise a new proxy type,
     * distinct from every cached one, becomes the pair's proxy type.
     */
    method CreateProxy(obj: Object, contract: ClrType, stubReturnTypes: Result<seq<ClrType>>) returns (r: Result<Adapter>)
      requires Valid()
      requires var k := (obj.runtimeType, contract);
        k in knownSatisfied && k !in contractToProxy
      requires stubReturnTypes.Ok? <==> Satisfied(describe, (obj.runtimeType, contract))
      requires stubReturnTypes.Err? ==> stubReturnTypes.error == NullReference
      modifies this`contractToProxy, this`nextProxy
      ensures Valid()
      ensures nextProxy == old(nextProxy) + 1
      ensures r.Ok? <==> Satisfied(describe, (obj.runtimeType, contract))
      ensures r.Err? ==> r.error == NullReference && contractToProxy == old(contractToProxy)
      ensures r.Ok? ==> r.value == Adapter(Dynamic(old(nextProxy)), obj) &&
                        contractToProxy == old(contractToProxy)[(obj.runtimeType, contract) := r.value.proxyType]
      ensures r.Ok? ==> forall k' :: k' in old(contractToProxy) ==> old(contractToProxy)[k'] != r.value.proxyType
    {
      var k := (obj.runtimeType, contract);
      if stubReturnTypes.Err? {
        DrawSerial();
        return Err(stubReturnTypes.error);
      }
      var proxyType := EmitProxyType(k);
      r := Ok(GenerateProxy(obj, proxyType));
    }

    /**
     * FoundExplicitConversions.Concat(FoundImplicitConversions).Select(x => x.Item2.ReturnType)
     * for the ProxyInfo of a known pair, whose regular methods are all found: it dereferences null
     * exactly when the pair does not structurally satisfy its contract.
     */
    method ConversionStubs(k: Key, info: ProxyInfo) returns (stubReturnTypes: Result<seq<ClrType>>)
      requires Valid() && k in knownSatisfied && info == FreshInfo(describe, k.0, k.1)
      ensures stubReturnTypes == StubReturnTypes(info.foundExplicitConversions + info.foundImplicitConversions)
      ensures stubReturnTypes.Ok? <==> Satisfied(describe, k)
      ensures stubReturnTypes.Err? ==> stubReturnTypes.error == NullReference
    {
      stubReturnTypes := StubReturnTypes(info.foundExplicitConversions + info.foundImplicitConversions);
      KnownIsAccepted(describe, CountTestAsWritten, knownSatisfied, k.0, k.1);
      FreshStubsIffSatisfied(describe, k.0, k.1);
    }

    /** Guid.NewGuid() for a proxy type that is never created: its serial is used up. */
    method DrawSerial()
      requires Valid()
      modifies this`nextProxy
      ensures Valid()
      ensures nextProxy == old(nextProxy) + 1
    {
      SkipKeepsFresh(contractToProxy, nextProxy);
      nextProxy := nextProxy + 1;
    }

    /**
     * CreateType and ContractToProxyDictionary.Add for a satisfied pair without a proxy type:
     * the type named by the next Guid becomes the pair's proxy type.
     */
    method EmitProxyType(k: Key) returns (proxyType: ClrType)
      requires Valid() && k in knownSatisfied && k !in contractToProxy && Satisfied(describe, k)
      modifies this`contractToProxy, this`nextProxy
      ensures Valid()
      ensures proxyType == Dynamic(old(nextProxy)) && nextProxy == old(nextProxy) + 1
      ensures contractToProxy == old(contractToProxy)[k := proxyType]
      ensures forall k' :: k' in old(contractToProxy) ==> old(contractToProxy)[k'] != proxyType
    {
      proxyType := Dynamic(nextProxy);
      EmitKeepsFresh(contractToProxy, nextProxy, k);
      AddSatisfied(describe, contractToProxy.Keys, k);
      assert contractToProxy[k := proxyType].Keys == contractToProxy.Keys + {k};
      EmitStaysKnown(contractToProxy, knownSatisfied, k, proxyType);
      nextProxy := nextProxy + 1;
      contractToProxy := contractToProxy[k := proxyType];
    }

    /**
     * ToContract<TContract>(obj), which is CreateContractProxyFromObject: NotSupportedException
     * from the guards, InvalidOperationException when a regular method is missing,
     * NullReferenceException when only a conversion is missing, and otherwise an adapter
     * around the object whose proxy type is the pair's cached one, emitted and cached now if
     * there was none. A pair with every regular method becomes known even when its proxy
     * cannot be built.
     */
    method ToContract(obj: Object, contract: ClrType) returns (r: Result<Adapter>)
      requires Valid()
      modifies this`contractToProxy, this`knownSatisfied, this`nextProxy
      ensures Valid()
      ensures !GuardsPass(describe(contract), describe(obj.runtimeType)) ==> r == Err(NotSupported)
      ensures (GuardsPass(describe(contract), describe(obj.runtimeType)) &&
               !Accepts(describe, CountTestAsWritten, obj.runtimeType, contract)) ==> r == Err(InvalidOperation)
      ensures var k := (obj.runtimeType, contract);
        Accepted(describe, CountTestAsWritten, k) && !Satisfied(describe, k) ==> r == Err(NullReference)
      ensures r.Ok? <==> Satisfied(describe, (obj.runtimeType, contract))
      ensures var k := (obj.runtimeType, contract);
        knownSatisfied == if Accepted(describe, CountTestAsWritten, k) then old(knownSatisfied) + {k} else old(knownSatisfied)
      ensures var k := (obj.runtimeType, contract);
        r.Ok? ==> r.value.internalObject == obj && k in contractToProxy && r.value.proxyType == contractToProxy[k]
      ensures var k := (obj.runtimeType, contract);
        k in old(contractToProxy) || r == Err(NotSupported) || r == Err(InvalidOperation) ==>
          contractToProxy == old(contractToProxy) && nextProxy == old(nextProxy)
      ensures var k := (obj.runtimeType, contract);
        k !in old(contractToProxy) && r.Ok? ==>
          contractToProxy == old(contractToProxy)[k := Dynamic(old(nextProxy))] && nextProxy == old(nextProxy) + 1
      ensures r == Err(NullReference) ==> contractToProxy == old(contractToProxy) && nextProxy == old(nextProxy) + 1
    {
      var check := WantedCheck(obj, contract);
      r := AdapterFor(obj, contract, check);
    }

    /**
     * The check ToContract runs, which always wants the ProxyInfo: what it answers, and the
     * pair becomes known exactly when it is accepted.
     */
    method WantedCheck(obj: Object, contract: ClrType) returns (check: Result<Check>)
      requires Valid()
      modifies this`contractToProxy, this`knownSatisfied, this`nextProxy
      ensures Valid()
      ensures contractToProxy == old(contractToProxy) && nextProxy == old(nextProxy)
      ensures var k := (obj.runtimeType, contract);
        knownSatisfied == if Accepted(describe, CountTestAsWritten, k) then old(knownSatisfied) + {k} else old(knownSatisfied)
      ensures var guards := GuardsPass(describe(contract), describe(obj.runtimeType));
        && (check.Err? <==> !guards) && (check.Err? ==> check.error == NotSupported)
        && (guards ==> check.Ok? && (check.value.satisfied <==> Accepts(describe, CountTestAsWritten, obj.runtimeType, contract)))
      ensures var k := (obj.runtimeType, contract);
        check.Ok? ==> (check.value.proxy.Some? <==> k in contractToProxy) &&
                      (check.value.proxy.Some? ==> check.value.proxy.value == contractToProxy[k])
      ensures var k := (obj.runtimeType, contract);
        check.Ok? && check.value.satisfied ==> k in knownSatisfied
      ensures check.Ok? && check.value.satisfied && check.value.proxy.None? ==>
        check.value.info == Some(FreshInfo(describe, obj.runtimeType, contract))
    {
      var k := (obj.runtimeType, contract);
      ProxyWantedOutcome(describe, CountTestAsWritten, contractToProxy, knownSatisfied, obj.runtimeType, contract);
      ProxyWantedRecords(describe, CountTestAsWritten, contractToProxy, knownSatisfied, obj.runtimeType, contract);
      ghost var proxies := contractToProxy;
      ghost var known := knownSatisfied;
      if k in proxies {
        KnownIsSatisfied(describe, proxies.Keys, obj.runtimeType, contract);
        CachedAlreadyKnown(proxies, known, k);
      }
      check := SatisfiesType(obj.runtimeType, contract, true);
    }

    /**
     * The rest of CreateContractProxyFromObject, given the outcome of the check: its exception,
     * InvalidOperationException for an unsatisfied pair, an adapter of the cached proxy type,
     * or, for an uncached pair, a new Guid and the stubs of the ProxyInfo. The conversion stubs
     * read x.Item2.ReturnType (line 190), a NullReferenceException when a conversion was not
     * found; otherwise a new proxy type, distinct from every cached one, becomes the pair's
     * proxy type. The set of known pairs is not touched.
     */
    method AdapterFor(obj: Object, contract: ClrType, check: Result<Check>) returns (r: Result<Adapter>)
      requires Valid()
      requires var guards := GuardsPass(describe(contract), describe(obj.runtimeType));
        (check.Err? <==> !guards) && (check.Err? ==> check.error == NotSupported)
      requires var k := (obj.runtimeType, contract);
        check.Ok? ==> (check.value.proxy.Some? <==> k in contractToProxy) &&
                      (check.value.proxy.Some? ==> check.value.proxy.value == contractToProxy[k])
      requires var k := (obj.runtimeType, contract);
        check.Ok? && check.value.satisfied ==> k in knownSatisfied
      requires check.Ok? && check.value.satisfied && check.value.proxy.None? ==>
        check.value.info == Some(FreshInfo(describe, obj.runtimeType, contract))
      modifies this`contractToProxy, this`nextProxy
      ensures Valid()
      ensures check.Err? ==> r == Err(check.error)
      ensures check.Ok? && !check.value.satisfied ==> r == Err(InvalidOperation)
      ensures check.Ok? && check.value.satisfied && check.value.proxy.Some? ==>
        r == Ok(Adapter(check.value.proxy.value, obj))
      ensures check.Err? || !check.value.satisfied || check.value.proxy.Some? ==>
        contractToProxy == old(contractToProxy) && nextProxy == old(nextProxy)
      ensures var k := (obj.runtimeType, contract);
        check.Ok? && check.value.satisfied && check.value.proxy.None? ==>
          && nextProxy == old(nextProxy) + 1
          && (r.Ok? <==> Satisfied(describe, k))
          && (r.Ok? ==> r.value == Adapter(Dynamic(old(nextProxy)), obj) &&
                        contractToProxy == old(contractToProxy)[k := Dynamic(old(nextProxy))])
          && (r.Err? ==> r.error == NullReference && contractToProxy == old(contractToProxy))
    {
      if check.Err? {
        return Err(check.error);
      }
      if !check.value.satisfied {
        return Err(InvalidOperation);
      }
      if check.value.proxy.Some? {
        return Ok(GenerateProxy(obj, check.value.proxy.value));
      }
      var stubReturnTypes := ConversionStubs((obj.runtimeType, contract), check.value.info.value);
      r := CreateProxy(obj, contract, stubReturnTypes);
    }
  }
}
