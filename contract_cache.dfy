/**
 * What the two newer contract checkers have in common: the guards, the proxy-type cache and
 * the set of known-satisfied pairs they consult, and the outcome of a satisfaction check as a
 * function of that state and of the test each checker applies to the ProxyInfo it builds.
 */
module ContractCache {
  import opened Wrappers
  import opened Reflection
  import opened ProxyInfos
  import opened ContractMatching

  /** (type, contract), the key of both caches. */
  type Key = (ClrType, ClrType)

  /** An object with its runtime type (obj.GetType()) and an identity. */
  datatype Object = Object(runtimeType: ClrType, identity: nat)

  /** An instance of a proxy type whose InternalObject field holds the original object. */
  datatype Adapter = Adapter(proxyType: ClrType, internalObject: Object)

  /** The Tuple<bool, Type, ProxyInfo> of a check: satisfied, the cached proxy type, the info. */
  datatype Check = Check(satisfied: bool, proxy: Option<ClrType>, info: Option<ProxyInfo>)

  /** The contract is a public interface and the type is public. */
  predicate GuardsPass(contract: TypeDesc, t: TypeDesc)
  {
    contract.isInterface && contract.isPublic && t.isPublic
  }

  /** The test a checker applies to the ProxyInfo it built for a pair. */
  datatype Test =
    | ValidityTest        // ContractProvider: ProxyInfo.IsValid
    | CountTestAsWritten  // Contracts/RuntimeContractExtensions: the counts after Except(x => x == null)

  /**
   * The count comparison of Contracts/RuntimeContractExtensions as written. Except(x => x == null)
   * on the conversion tuples drops nothing, since a tuple is never null even when its method
   * is, so the conversion counts always agree and only the regular methods are compared.
   */
  predicate CountsMatchAsWritten(p: ProxyInfo)
  {
    && |p.requiredMethods| == |p.foundMethods|
    && |p.requiredExplicitConversions| == |p.foundExplicitConversions|
    && |p.requiredImplicitConversions| == |p.foundImplicitConversions|
  }

  predicate Passes(test: Test, info: ProxyInfo)
  {
    match test
    case ValidityTest => IsValid(info)
    case CountTestAsWritten => CountsMatchAsWritten(info)
  }

  /** As written, the count test accepts every type that has the regular methods, whatever its conversions. */
  lemma AsWrittenChecksOnlyMethods(contract: TypeDesc, t: TypeDesc)
    ensures CountsMatchAsWritten(BuildProxyInfo(contract, t, ImplicitConversionAttribute)) <==>
            AllMethodsFound(t, RegularRequirements(contract, ImplicitConversionAttribute))
  {
    var p := BuildProxyInfo(contract, t, ImplicitConversionAttribute);
    LookUpAllFound(t, p.requiredMethods);
  }

  /** The check matched the pair afresh and accepted it, so the pair is recorded as satisfied. */
  predicate Records(r: Result<Check>)
  {
    r.Ok? && r.value.satisfied && r.value.info.Some?
  }

  /** The info a fresh match builds for (type, contract). */
  function FreshInfo(describe: ClrType -> TypeDesc, t: ClrType, contract: ClrType): ProxyInfo
  {
    BuildProxyInfo(describe(contract), describe(t), ImplicitConversionAttribute)
  }

  /**
   * What each test decides about a pair, in terms of the type and the contract: validity is
   * structural satisfaction, and the count test as written asks only for the regular methods.
   */
  predicate Accepts(describe: ClrType -> TypeDesc, test: Test, t: ClrType, contract: ClrType)
  {
    match test
    case ValidityTest => StructurallySatisfies(describe(contract), describe(t), ImplicitConversionAttribute)
    case CountTestAsWritten => AllMethodsFound(describe(t), RegularRequirements(describe(contract), ImplicitConversionAttribute))
  }

  /**
   * Each test of the ProxyInfo built for a pair decides Accepts, and both accept every pair
   * that structurally satisfies its contract.
   */
  lemma TestDecides(describe: ClrType -> TypeDesc, test: Test, t: ClrType, contract: ClrType)
    ensures Passes(test, FreshInfo(describe, t, contract)) <==> Accepts(describe, test, t, contract)
    ensures StructurallySatisfies(describe(contract), describe(t), ImplicitConversionAttribute) ==>
      Accepts(describe, test, t, contract)
  {
    BuiltInfoValidIff(describe(contract), describe(t), ImplicitConversionAttribute);
    AsWrittenChecksOnlyMethods(describe(contract), describe(t));
  }

  /**
   * Matching the pair afresh: (true, null, info) when the checker's test accepts the pair,
   * else (false, null, null). TestDecides shows that the test run on the built ProxyInfo
   * (Passes) decides exactly this.
   */
  function FreshCheck(describe: ClrType -> TypeDesc, test: Test, t: ClrType, contract: ClrType): (c: Check)
    ensures c.proxy.None?
    ensures c.satisfied <==> c.info.Some?
    ensures c.satisfied <==> Accepts(describe, test, t, contract)
    ensures c.info.Some? ==> c.info.value == FreshInfo(describe, t, contract)
  {
    if Accepts(describe, test, t, contract) then Check(true, None, Some(FreshInfo(describe, t, contract)))
    else Check(false, None, None)
  }

  /**
   * The outcome of the private check for (type, contract) given the caches: the three guards
   * (NotSupportedException), then a cached proxy type, then, unless the info is always
   * wanted, a known-satisfied pair, and otherwise a fresh match.
   */
  function CheckOutcome(describe: ClrType -> TypeDesc, test: Test, proxies: map<Key, ClrType>, known: set<Key>,
                        t: ClrType, contract: ClrType, alwaysGiveProxyInfo: bool): (r: Result<Check>)
    ensures r.Err? ==> r.error == NotSupported
    ensures Records(r) ==> r.value.proxy.None?
  {
    if !describe(contract).isInterface then Err(NotSupported)
    else if !describe(contract).isPublic then Err(NotSupported)
    else if !describe(t).isPublic then Err(NotSupported)
    else if (t, contract) in proxies then Ok(Check(true, Some(proxies[(t, contract)]), None))
    else if !alwaysGiveProxyInfo && (t, contract) in known then Ok(Check(true, None, None))
    else Ok(FreshCheck(describe, test, t, contract))
  }

  /** The pair passes the guards and the checker's test. */
  predicate Accepted(describe: ClrType -> TypeDesc, test: Test, k: Key)
  {
    GuardsPass(describe(k.1), describe(k.0)) && Accepts(describe, test, k.0, k.1)
  }

  /** Every pair in the set is accepted by the test. */
  predicate AllAccepted(describe: ClrType -> TypeDesc, test: Test, known: set<Key>)
  {
    forall k {:trigger Accepted(describe, test, k)} :: k in known ==> Accepted(describe, test, k)
  }

  /** A pair in a set of accepted pairs passes the guards and the test. */
  lemma KnownIsAccepted(describe: ClrType -> TypeDesc, test: Test, known: set<Key>, t: ClrType, contract: ClrType)
    requires AllAccepted(describe, test, known) && (t, contract) in known
    ensures GuardsPass(describe(contract), describe(t))
    ensures Accepts(describe, test, t, contract)
  {
    assert Accepted(describe, test, (t, contract));
  }

  /** Recording one more accepted pair keeps every recorded pair accepted. */
  lemma RecordAccepted(describe: ClrType -> TypeDesc, test: Test, known: set<Key>, k: Key)
    requires AllAccepted(describe, test, known) && Accepted(describe, test, k)
    ensures AllAccepted(describe, test, known + {k})
  {
  }

  /** The pair passes the guards and the type structurally satisfies the contract. */
  predicate Satisfied(describe: ClrType -> TypeDesc, k: Key)
  {
    GuardsPass(describe(k.1), describe(k.0)) &&
    StructurallySatisfies(describe(k.1), describe(k.0), ImplicitConversionAttribute)
  }

  /** Every pair in the set is satisfied. */
  predicate AllSatisfied(describe: ClrType -> TypeDesc, known: set<Key>)
  {
    forall k {:trigger Satisfied(describe, k)} :: k in known ==> Satisfied(describe, k)
  }

  /** A pair in a set of satisfied pairs structurally satisfies its contract. */
  lemma KnownIsSatisfied(describe: ClrType -> TypeDesc, known: set<Key>, t: ClrType, contract: ClrType)
    requires AllSatisfied(describe, known) && (t, contract) in known
    ensures GuardsPass(describe(contract), describe(t))
    ensures StructurallySatisfies(describe(contract), describe(t), ImplicitConversionAttribute)
  {
    assert Satisfied(describe, (t, contract));
  }

  /** Adding one more satisfied pair keeps every pair of the set satisfied. */
  lemma AddSatisfied(describe: ClrType -> TypeDesc, known: set<Key>, k: Key)
    requires AllSatisfied(describe, known) && Satisfied(describe, k)
    ensures AllSatisfied(describe, known + {k})
  {
  }

  /** Under validity, acceptance is satisfaction. */
  lemma ValidityAcceptsSatisfied(describe: ClrType -> TypeDesc, k: Key)
    ensures Accepted(describe, ValidityTest, k) <==> Satisfied(describe, k)
  {
  }

  /** Every pair accepted under validity is satisfied. */
  lemma ValidityKnownSatisfied(describe: ClrType -> TypeDesc, known: set<Key>)
    requires AllAccepted(describe, ValidityTest, known)
    ensures AllSatisfied(describe, known)
  {
    forall k | k in known ensures Satisfied(describe, k) {
      assert Accepted(describe, ValidityTest, k);
      ValidityAcceptsSatisfied(describe, k);
    }
  }

  /** Every proxy type is one emitted before serial next, and no two pairs share one. */
  predicate ProxiesFresh(proxies: map<Key, ClrType>, next: nat)
  {
    && (forall k :: k in proxies ==> proxies[k].Dynamic? && proxies[k].serial < next)
    && (forall k1, k2 :: k1 in proxies && k2 in proxies && k1 != k2 ==> proxies[k1] != proxies[k2])
  }

  /** Emitting the proxy type of serial next for a new pair keeps the proxy types distinct. */
  lemma EmitKeepsFresh(proxies: map<Key, ClrType>, next: nat, k: Key)
    requires ProxiesFresh(proxies, next) && k !in proxies
    ensures ProxiesFresh(proxies[k := Dynamic(next)], next + 1)
    ensures forall k' :: k' in proxies ==> proxies[k'] != Dynamic(next)
  {
  }

  /** Drawing a serial without emitting its proxy type keeps the proxy types fresh. */
  lemma SkipKeepsFresh(proxies: map<Key, ClrType>, next: nat)
    requires ProxiesFresh(proxies, next)
    ensures ProxiesFresh(proxies, next + 1)
  {
  }

  /** A newly cached pair that was known keeps every cached pair known. */
  lemma EmitStaysKnown(proxies: map<Key, ClrType>, known: set<Key>, k: Key, p: ClrType)
    requires proxies.Keys <= known && k in known
    ensures proxies[k := p].Keys <= known
  {
  }

  /** Recording a cached pair again changes nothing. */
  lemma CachedAlreadyKnown(proxies: map<Key, ClrType>, known: set<Key>, k: Key)
    requires proxies.Keys <= known && k in proxies
    ensures known + {k} == known
  {
  }

  /** Recording a pair keeps every cached pair recorded. */
  lemma CachedStayKnown(proxies: map<Key, ClrType>, known: set<Key>, k: Key)
    requires proxies.Keys <= known
    ensures proxies.Keys <= known + {k}
  {
  }

  /**
   * The conversion stubs of a satisfied pair's ProxyInfo read every method's return type
   * without a null dereference.
   */
  lemma SatisfiedInfoBuildsStubs(describe: ClrType -> TypeDesc, t: ClrType, contract: ClrType)
    requires StructurallySatisfies(describe(contract), describe(t), ImplicitConversionAttribute)
    ensures var info := FreshInfo(describe, t, contract);
      StubReturnTypes(info.foundExplicitConversions + info.foundImplicitConversions).Ok?
  {
    BuiltInfoValidIff(describe(contract), describe(t), ImplicitConversionAttribute);
    ValidInfoBuildsStubs(FreshInfo(describe, t, contract));
  }

  /**
   * For a pair whose regular methods are all found, the conversion stubs of its ProxyInfo
   * read every method's return type without a null dereference exactly when the pair
   * structurally satisfies its contract.
   */
  lemma FreshStubsIffSatisfied(describe: ClrType -> TypeDesc, t: ClrType, contract: ClrType)
    requires AllMethodsFound(describe(t), RegularRequirements(describe(contract), ImplicitConversionAttribute))
    ensures var info := FreshInfo(describe, t, contract);
      StubReturnTypes(info.foundExplicitConversions + info.foundImplicitConversions).Ok? <==>
      StructurallySatisfies(describe(contract), describe(t), ImplicitConversionAttribute)
  {
    StubsBuiltIffConversionsFound(describe(contract), describe(t), ImplicitConversionAttribute);
  }

  /** A failed guard throws whatever the caches hold. */
  lemma GuardsPrecedeCaches(describe: ClrType -> TypeDesc, test: Test, proxies: map<Key, ClrType>, known: set<Key>,
                            t: ClrType, contract: ClrType, always: bool)
    requires !GuardsPass(describe(contract), describe(t))
    ensures CheckOutcome(describe, test, proxies, known, t, contract, always) == Err(NotSupported)
  {
  }

  /** A cached proxy type answers (true, proxy, null) without matching. */
  lemma CachedProxyShortCircuits(describe: ClrType -> TypeDesc, test: Test, proxies: map<Key, ClrType>, known: set<Key>,
                                 t: ClrType, contract: ClrType, always: bool)
    requires GuardsPass(describe(contract), describe(t)) && (t, contract) in proxies
    ensures CheckOutcome(describe, test, proxies, known, t, contract, always) ==
            Ok(Check(true, Some(proxies[(t, contract)]), None))
  {
  }

  /** Without the info wanted, a known-satisfied pair answers true without matching. */
  lemma KnownPairShortCircuits(describe: ClrType -> TypeDesc, test: Test, proxies: map<Key, ClrType>, known: set<Key>,
                               t: ClrType, contract: ClrType)
    requires GuardsPass(describe(contract), describe(t)) && (t, contract) !in proxies && (t, contract) in known
    ensures CheckOutcome(describe, test, proxies, known, t, contract, false) == Ok(Check(true, None, None))
  {
  }

  /** Otherwise the pair is matched afresh, and recorded exactly when it passes the test. */
  lemma FreshMatch(describe: ClrType -> TypeDesc, test: Test, proxies: map<Key, ClrType>, known: set<Key>,
                   t: ClrType, contract: ClrType, always: bool)
    requires GuardsPass(describe(contract), describe(t)) && (t, contract) !in proxies
    requires always || (t, contract) !in known
    ensures var r := CheckOutcome(describe, test, proxies, known, t, contract, always);
      r.Ok? && r.value.proxy.None? && (r.value.satisfied <==> Records(r)) &&
      (r.value.satisfied <==> Accepted(describe, test, (t, contract)))
  {
  }

  /**
   * When every cached pair is known and every known pair is accepted, the caches never change
   * the answer: the check says satisfied exactly when the pair is accepted by the test.
   */
  lemma CachesAgreeWithMatching(describe: ClrType -> TypeDesc, test: Test, proxies: map<Key, ClrType>, known: set<Key>,
                                t: ClrType, contract: ClrType, always: bool)
    requires proxies.Keys <= known && AllAccepted(describe, test, known)
    ensures var r := CheckOutcome(describe, test, proxies, known, t, contract, always);
      r.Ok? ==> (r.value.satisfied <==> Accepted(describe, test, (t, contract)))
  {
    var r := CheckOutcome(describe, test, proxies, known, t, contract, always);
    if r.Ok? && (t, contract) in proxies {
      assert (t, contract) in known;
    }
  }

  /**
   * What a proxy-building caller gets when it always wants the info: NotSupportedException
   * from the guards, and otherwise satisfied exactly when the pair passes the test; either the
   * cached proxy type of the pair or, for an uncached pair that passes, the freshly built info.
   */
  lemma ProxyWantedOutcome(describe: ClrType -> TypeDesc, test: Test, proxies: map<Key, ClrType>, known: set<Key>,
                           t: ClrType, contract: ClrType)
    requires proxies.Keys <= known && AllAccepted(describe, test, known)
    ensures var r := CheckOutcome(describe, test, proxies, known, t, contract, true);
      && (!GuardsPass(describe(contract), describe(t)) ==> r == Err(NotSupported))
      && (GuardsPass(describe(contract), describe(t)) ==>
           r.Ok? && (r.value.satisfied <==> Accepts(describe, test, t, contract)))
      && (r.Ok? && r.value.proxy.Some? ==> (t, contract) in proxies && r.value.proxy.value == proxies[(t, contract)])
      && (r.Ok? && r.value.proxy.None? ==> (t, contract) !in proxies)
      && (r.Ok? && r.value.satisfied && r.value.proxy.None? ==> r.value.info == Some(FreshInfo(describe, t, contract)))
      && (r.Ok? ==> (Records(r) <==> r.value.satisfied && r.value.proxy.None?))
  {
    CachesAgreeWithMatching(describe, test, proxies, known, t, contract, true);
  }

  /** With the info wanted, a check records the pair exactly when the pair is accepted and not yet known. */
  lemma ProxyWantedRecords(describe: ClrType -> TypeDesc, test: Test, proxies: map<Key, ClrType>, known: set<Key>,
                           t: ClrType, contract: ClrType)
    requires proxies.Keys <= known && AllAccepted(describe, test, known)
    ensures var r := CheckOutcome(describe, test, proxies, known, t, contract, true);
      (if Records(r) then known + {(t, contract)} else known) ==
      (if Accepted(describe, test, (t, contract)) then known + {(t, contract)} else known)
  {
    ProxyWantedOutcome(describe, test, proxies, known, t, contract);
    if (t, contract) in proxies {
      KnownIsAccepted(describe, test, known, t, contract);
    }
  }
}
