/**
 * ProxyInfo: what a contract requires of a type and what was found on it, list by list, and
 * the IsValid test that decides whether a proxy can be built from it.
 */
module ProxyInfos {
  import opened Wrappers
  import opened Reflection

  /**
   * A found conversion or operator: the contract method's name and the implementation's
   * method, null when none was found. The declared tuple also has an int component, which
   * nothing here reads.
   */
  datatype Binding = Binding(name: string, target: Option<Method>)

  /** The eleven Required lists and the eleven Found lists, plus the two type properties. */
  datatype ProxyInfo = ProxyInfo(
    providedType: Option<ClrType>,
    contract: Option<ClrType>,
    requiredMethods: seq<Method>,
    requiredExplicitConversions: seq<Method>,
    requiredImplicitConversions: seq<Method>,
    requiredLeftSideAdditionOperators: seq<Method>,
    requiredRightSideAdditionOperators: seq<Method>,
    requiredLeftSideSubtractionOperators: seq<Method>,
    requiredRightSideSubtractionOperators: seq<Method>,
    requiredLeftSideMultiplicationOperators: seq<Method>,
    requiredRightSideMultiplicationOperators: seq<Method>,
    requiredLeftSideDivisionOperators: seq<Method>,
    requiredRightSideDivisionOperators: seq<Method>,
    foundMethods: seq<Option<Method>>,
    foundExplicitConversions: seq<Binding>,
    foundImplicitConversions: seq<Binding>,
    foundLeftSideAdditionOperators: seq<Binding>,
    foundRightSideAdditionOperators: seq<Binding>,
    foundLeftSideSubtractionOperators: seq<Binding>,
    foundRightSideSubtractionOperators: seq<Binding>,
    foundLeftSideMultiplicationOperators: seq<Binding>,
    foundRightSideMultiplicationOperators: seq<Binding>,
    foundLeftSideDivisionOperators: seq<Binding>,
    foundRightSideDivisionOperators: seq<Binding>)

  /** The number of lists of each kind. */
  const ListPairs := 11

  /** The parameterless constructor: every list empty, both types null. */
  function EmptyProxyInfo(): (p: ProxyInfo)
    ensures p.providedType.None? && p.contract.None?
    ensures forall k :: 0 <= k < ListPairs ==> RequiredCount(p, k) == 0 && FoundCount(p, k) == 0
  {
    ProxyInfo(None, None, [], [], [], [], [], [], [], [], [], [], [], [], [], [], [], [], [], [], [], [], [], [])
  }

  /** No entry of the list is null. */
  predicate NoNullMethods(found: seq<Option<Method>>)
  {
    forall i :: 0 <= i < |found| ==> found[i].Some?
  }

  /** No tuple of the list has a null method component. */
  predicate AllBound(found: seq<Binding>)
  {
    forall i :: 0 <= i < |found| ==> found[i].target.Some?
  }

  /** IsValid: the eleven count comparisons in order, then the eleven null checks in order. */
  predicate IsValid(p: ProxyInfo)
  {
    if |p.requiredMethods| != |p.foundMethods| then false
    else if |p.requiredExplicitConversions| != |p.foundExplicitConversions| then false
    else if |p.requiredImplicitConversions| != |p.foundImplicitConversions| then false
    else if |p.requiredLeftSideAdditionOperators| != |p.foundLeftSideAdditionOperators| then false
    else if |p.requiredRightSideAdditionOperators| != |p.foundRightSideAdditionOperators| then false
    else if |p.requiredLeftSideSubtractionOperators| != |p.foundLeftSideSubtractionOperators| then false
    else if |p.requiredRightSideSubtractionOperators| != |p.foundRightSideSubtractionOperators| then false
    else if |p.requiredLeftSideMultiplicationOperators| != |p.foundLeftSideMultiplicationOperators| then false
    else if |p.requiredRightSideMultiplicationOperators| != |p.foundRightSideMultiplicationOperators| then false
    else if |p.requiredLeftSideDivisionOperators| != |p.foundLeftSideDivisionOperators| then false
    else if |p.requiredRightSideDivisionOperators| != |p.foundRightSideDivisionOperators| then false
    else if !NoNullMethods(p.foundMethods) then false
    else if !AllBound(p.foundExplicitConversions) then false
    else if !AllBound(p.foundImplicitConversions) then false
    else if !AllBound(p.foundLeftSideAdditionOperators) then false
    else if !AllBound(p.foundRightSideAdditionOperators) then false
    else if !AllBound(p.foundLeftSideSubtractionOperators) then false
    else if !AllBound(p.foundRightSideSubtractionOperators) then false
    else if !AllBound(p.foundLeftSideMultiplicationOperators) then false
    else if !AllBound(p.foundRightSideMultiplicationOperators) then false
    else if !AllBound(p.foundLeftSideDivisionOperators) then false
    else if !AllBound(p.foundRightSideDivisionOperators) then false
    else true
  }

  /** The Count of the k-th Required list, in declaration order. */
  function RequiredCount(p: ProxyInfo, k: nat): nat
    requires k < ListPairs
  {
    match k
    case 0 => |p.requiredMethods|
    case 1 => |p.requiredExplicitConversions|
    case 2 => |p.requiredImplicitConversions|
    case 3 => |p.requiredLeftSideAdditionOperators|
    case 4 => |p.requiredRightSideAdditionOperators|
    case 5 => |p.requiredLeftSideSubtractionOperators|
    case 6 => |p.requiredRightSideSubtractionOperators|
    case 7 => |p.requiredLeftSideMultiplicationOperators|
    case 8 => |p.requiredRightSideMultiplicationOperators|
    case 9 => |p.requiredLeftSideDivisionOperators|
    case _ => |p.requiredRightSideDivisionOperators|
  }

  /** The k-th Found list of tuples, for 1 <= k < 11. */
  function FoundBindings(p: ProxyInfo, k: nat): seq<Binding>
    requires 1 <= k < ListPairs
  {
    match k
    case 1 => p.foundExplicitConversions
    case 2 => p.foundImplicitConversions
    case 3 => p.foundLeftSideAdditionOperators
    case 4 => p.foundRightSideAdditionOperators
    case 5 => p.foundLeftSideSubtractionOperators
    case 6 => p.foundRightSideSubtractionOperators
    case 7 => p.foundLeftSideMultiplicationOperators
    case 8 => p.foundRightSideMultiplicationOperators
    case 9 => p.foundLeftSideDivisionOperators
    case _ => p.foundRightSideDivisionOperators
  }

  /** The Count of the k-th Found list. */
  function FoundCount(p: ProxyInfo, k: nat): nat
    requires k < ListPairs
  {
    if k == 0 then |p.foundMethods| else |FoundBindings(p, k)|
  }

  /** The k-th Found list holds no null. */
  predicate FoundComplete(p: ProxyInfo, k: nat)
    requires k < ListPairs
  {
    if k == 0 then NoNullMethods(p.foundMethods) else AllBound(FoundBindings(p, k))
  }

  /** IsValid holds exactly when every Required/Found pair has equal counts and no Found list holds a null. */
  lemma IsValidIff(p: ProxyInfo)
    ensures IsValid(p) <==> forall k :: 0 <= k < ListPairs ==> RequiredCount(p, k) == FoundCount(p, k) && FoundComplete(p, k)
  {
    if forall k :: 0 <= k < ListPairs ==> RequiredCount(p, k) == FoundCount(p, k) && FoundComplete(p, k) {
      assert RequiredCount(p, 0) == FoundCount(p, 0) && FoundComplete(p, 0);
      assert RequiredCount(p, 1) == FoundCount(p, 1) && FoundComplete(p, 1);
      assert RequiredCount(p, 2) == FoundCount(p, 2) && FoundComplete(p, 2);
      assert RequiredCount(p, 3) == FoundCount(p, 3) && FoundComplete(p, 3);
      assert RequiredCount(p, 4) == FoundCount(p, 4) && FoundComplete(p, 4);
      assert RequiredCount(p, 5) == FoundCount(p, 5) && FoundComplete(p, 5);
      assert RequiredCount(p, 6) == FoundCount(p, 6) && FoundComplete(p, 6);
      assert RequiredCount(p, 7) == FoundCount(p, 7) && FoundComplete(p, 7);
      assert RequiredCount(p, 8) == FoundCount(p, 8) && FoundComplete(p, 8);
      assert RequiredCount(p, 9) == FoundCount(p, 9) && FoundComplete(p, 9);
      assert RequiredCount(p, 10) == FoundCount(p, 10) && FoundComplete(p, 10);
    }
  }

  /** A differing count in any pair makes the info invalid. */
  lemma CountMismatchInvalid(p: ProxyInfo, k: nat)
    requires k < ListPairs && RequiredCount(p, k) != FoundCount(p, k)
    ensures !IsValid(p)
  {
    IsValidIff(p);
  }

  /** A null found method, or a found tuple with a null method, makes the info invalid. */
  lemma NullFoundInvalid(p: ProxyInfo, k: nat, i: nat)
    requires k < ListPairs
    requires k == 0 ==> i < |p.foundMethods| && p.foundMethods[i].None?
    requires k > 0 ==> i < |FoundBindings(p, k)| && FoundBindings(p, k)[i].target.None?
    ensures !IsValid(p)
  {
    IsValidIff(p);
  }

  /** A freshly constructed ProxyInfo is valid. */
  lemma EmptyProxyInfoIsValid()
    ensures IsValid(EmptyProxyInfo())
  {
  }

  /** The eight operator list pairs are empty, as in a ProxyInfo that records only methods and conversions. */
  predicate OperatorListsEmpty(p: ProxyInfo)
  {
    && p.requiredLeftSideAdditionOperators == [] && p.requiredRightSideAdditionOperators == []
    && p.requiredLeftSideSubtractionOperators == [] && p.requiredRightSideSubtractionOperators == []
    && p.requiredLeftSideMultiplicationOperators == [] && p.requiredRightSideMultiplicationOperators == []
    && p.requiredLeftSideDivisionOperators == [] && p.requiredRightSideDivisionOperators == []
    && p.foundLeftSideAdditionOperators == [] && p.foundRightSideAdditionOperators == []
    && p.foundLeftSideSubtractionOperators == [] && p.foundRightSideSubtractionOperators == []
    && p.foundLeftSideMultiplicationOperators == [] && p.foundRightSideMultiplicationOperators == []
    && p.foundLeftSideDivisionOperators == [] && p.foundRightSideDivisionOperators == []
  }

  /** With the operator lists empty, IsValid checks only the methods and the two conversion lists. */
  lemma ValidWithoutOperators(p: ProxyInfo)
    requires OperatorListsEmpty(p)
    ensures IsValid(p) <==>
      && |p.requiredMethods| == |p.foundMethods| && NoNullMethods(p.foundMethods)
      && |p.requiredExplicitConversions| == |p.foundExplicitConversions| && AllBound(p.foundExplicitConversions)
      && |p.requiredImplicitConversions| == |p.foundImplicitConversions| && AllBound(p.foundImplicitConversions)
  {
  }
}
