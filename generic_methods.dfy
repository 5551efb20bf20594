/** TypeExtensions.GetGenericMethods, GetGenericMethod and the ParamInfoPredicate they match parameters with. */
module GenericMethods {
  import opened Wrappers
  import opened Linq
  import opened Reflection

  /**
   * ParamInfoPredicate(t1, t2, sub): t1 is the candidate's parameter type, t2 the required one.
   * Exactly one of them a generic parameter: no match. Neither: identity, or with
   * substitution t1.IsAssignableFrom(t2). Both: their constraint lists match pairwise, with
   * the same flag, and have equal length.
   */
  predicate ParamInfoPredicate(assignable: Assignability, t1: ClrType, t2: ClrType, sub: bool)
    decreases t1
  {
    if t1.GenericParameter? != t2.GenericParameter? then false
    else if !t1.GenericParameter? then (if sub then assignable(t1, t2) else t1 == t2)
    else
      |t1.constraints| == |t2.constraints| &&
      forall i :: 0 <= i < |t1.constraints| ==> ParamInfoPredicate(assignable, t1.constraints[i], t2.constraints[i], sub)
  }

  /** GetParameters().SequenceEqual(parameters, ParamInfoPredicate). */
  predicate ParametersMatch(assignable: Assignability, candidate: seq<ClrType>, required: seq<ClrType>, sub: bool)
  {
    |candidate| == |required| &&
    forall i :: 0 <= i < |candidate| ==> ParamInfoPredicate(assignable, candidate[i], required[i], sub)
  }

  /** The predicate never relates a generic parameter to a type that is not one. */
  lemma MixedKindsNeverMatch(assignable: Assignability, t1: ClrType, t2: ClrType, sub: bool)
    requires t1.GenericParameter? != t2.GenericParameter?
    ensures !ParamInfoPredicate(assignable, t1, t2, sub)
  {
  }

  /** Without substitution the predicate is reflexive, by induction on the depth of the constraints. */
  lemma {:induction false} ParamInfoReflexive(assignable: Assignability, t: ClrType)
    ensures ParamInfoPredicate(assignable, t, t, false)
    decreases t
  {
    if t.GenericParameter? {
      forall i | 0 <= i < |t.constraints|
        ensures ParamInfoPredicate(assignable, t.constraints[i], t.constraints[i], false)
      {
        ParamInfoReflexive(assignable, t.constraints[i]);
      }
    }
  }

  /** Without substitution the predicate is symmetric. */
  lemma {:induction false} ParamInfoSymmetric(assignable: Assignability, t1: ClrType, t2: ClrType)
    requires ParamInfoPredicate(assignable, t1, t2, false)
    ensures ParamInfoPredicate(assignable, t2, t1, false)
    decreases t1
  {
    if t1.GenericParameter? {
      forall i | 0 <= i < |t2.constraints|
        ensures ParamInfoPredicate(assignable, t2.constraints[i], t1.constraints[i], false)
      {
        ParamInfoSymmetric(assignable, t1.constraints[i], t2.constraints[i]);
      }
    }
  }

  /** Without substitution the predicate is transitive. */
  lemma {:induction false} ParamInfoTransitive(assignable: Assignability, t1: ClrType, t2: ClrType, t3: ClrType)
    requires ParamInfoPredicate(assignable, t1, t2, false)
    requires ParamInfoPredicate(assignable, t2, t3, false)
    ensures ParamInfoPredicate(assignable, t1, t3, false)
    decreases t1
  {
    if t1.GenericParameter? {
      forall i | 0 <= i < |t1.constraints|
        ensures ParamInfoPredicate(assignable, t1.constraints[i], t3.constraints[i], false)
      {
        ParamInfoTransitive(assignable, t1.constraints[i], t2.constraints[i], t3.constraints[i]);
      }
    }
  }

  /** When IsAssignableFrom is reflexive, a match without substitution is also a match with it. */
  lemma {:induction false} ExactImpliesSubstitutable(assignable: Assignability, t1: ClrType, t2: ClrType)
    requires forall x :: assignable(x, x)
    requires ParamInfoPredicate(assignable, t1, t2, false)
    ensures ParamInfoPredicate(assignable, t1, t2, true)
    decreases t1
  {
    if t1.GenericParameter? {
      forall i | 0 <= i < |t1.constraints|
        ensures ParamInfoPredicate(assignable, t1.constraints[i], t2.constraints[i], true)
      {
        ExactImpliesSubstitutable(assignable, t1.constraints[i], t2.constraints[i]);
      }
    }
  }

  /** The full condition a method of the type must meet to be returned. */
  predicate IsMatchingOverload(assignable: Assignability, m: Method, name: string, parameters: seq<ClrType>, sub: bool)
  {
    m.name == name && |m.parameters| == |parameters| && ParametersMatch(assignable, m.parameters, parameters, sub)
  }

  /** Where(x => x.Name == name). */
  function WithName(ms: seq<Method>, name: string): seq<Method>
  {
    Filter(ms, (m: Method) => m.name == name)
  }

  /** Where(x => x.GetParameters().Length == parameters.Length). */
  function WithArity(ms: seq<Method>, arity: nat): seq<Method>
  {
    Filter(ms, (m: Method) => |m.parameters| == arity)
  }

  /** Where(x => x.GetParameters().SequenceEqual(parameters, ...)). */
  function WithMatchingParameters(assignable: Assignability, ms: seq<Method>, parameters: seq<ClrType>, sub: bool): seq<Method>
  {
    Filter(ms, (m: Method) => ParametersMatch(assignable, m.parameters, parameters, sub))
  }

  /**
   * GetGenericMethods(type, name, parameters, allowSubstitution): the methods of every
   * kind (static, instance, public, non-public) with that name and arity whose parameters
   * match pairwise. A null argument raises ArgumentNullException, checked in the order
   * type, name, parameters.
   */
  function GetGenericMethods(assignable: Assignability, t: Option<TypeDesc>, name: Option<string>,
                             parameters: Option<seq<ClrType>>, sub: bool): (r: Result<seq<Method>>)
    ensures t.None? ==> r == Err(ArgumentNull("type"))
    ensures t.Some? && name.None? ==> r == Err(ArgumentNull("name"))
    ensures t.Some? && name.Some? && parameters.None? ==> r == Err(ArgumentNull("parameters"))
    ensures t.Some? && name.Some? && parameters.Some? ==> (r.Ok? &&
      forall m :: m in r.value <==>
        m in t.value.members && m.MethodMember? && IsMatchingOverload(assignable, m, name.value, parameters.value, sub))
  {
    if t.None? then Err(ArgumentNull("type"))
    else if name.None? then Err(ArgumentNull("name"))
    else if parameters.None? then Err(ArgumentNull("parameters"))
    else
      var overloads := WithArity(WithName(GetMethods(t.value, GetMethodFlags), name.value), |parameters.value|);
      Ok(WithMatchingParameters(assignable, overloads, parameters.value, sub))
  }

  /** The methods satisfying the whole condition, in their original order. */
  function MatchingOverloads(assignable: Assignability, ms: seq<Method>, name: string, parameters: seq<ClrType>, sub: bool): seq<Method>
  {
    Filter(ms, (m: Method) => IsMatchingOverload(assignable, m, name, parameters, sub))
  }

  /** The three successive filters are one filter by the conjunction, applied in order. */
  lemma {:induction false} FiltersCompose(assignable: Assignability, ms: seq<Method>, name: string, parameters: seq<ClrType>, sub: bool)
    ensures WithMatchingParameters(assignable, WithArity(WithName(ms, name), |parameters|), parameters, sub) ==
            MatchingOverloads(assignable, ms, name, parameters, sub)
  {
    if ms != [] {
      FiltersCompose(assignable, ms[1..], name, parameters, sub);
      var m := ms[0];
      var named := if m.name == name then [m] else [];
      assert WithName(ms, name) == named + WithName(ms[1..], name);
      FilterConcat(named, WithName(ms[1..], name), (x: Method) => |x.parameters| == |parameters|);
      var sized := if m.name == name && |m.parameters| == |parameters| then [m] else [];
      assert WithArity(named, |parameters|) == sized;
      FilterConcat(sized, WithArity(WithName(ms[1..], name), |parameters|),
                   (x: Method) => ParametersMatch(assignable, x.parameters, parameters, sub));
      assert WithMatchingParameters(assignable, sized, parameters, sub) ==
             (if IsMatchingOverload(assignable, m, name, parameters, sub) then [m] else []);
    }
  }

  /** GetGenericMethods keeps the order of GetMethods. */
  lemma GetGenericMethodsInOrder(assignable: Assignability, t: TypeDesc, name: string, parameters: seq<ClrType>, sub: bool)
    ensures GetGenericMethods(assignable, Some(t), Some(name), Some(parameters), sub) ==
            Ok(MatchingOverloads(assignable, GetMethods(t, GetMethodFlags), name, parameters, sub))
  {
    FiltersCompose(assignable, GetMethods(t, GetMethodFlags), name, parameters, sub);
  }

  /** The overload without allowSubstitution searches without substitution. */
  function GetGenericMethodsExact(assignable: Assignability, t: Option<TypeDesc>, name: Option<string>,
                                  parameters: Option<seq<ClrType>>): (r: Result<seq<Method>>)
    ensures t.None? ==> r == Err(ArgumentNull("type"))
    ensures t.Some? && name.None? ==> r == Err(ArgumentNull("name"))
    ensures t.Some? && name.Some? && parameters.None? ==> r == Err(ArgumentNull("parameters"))
    ensures t.Some? && name.Some? && parameters.Some? ==> (r.Ok? &&
      forall m :: m in r.value <==>
        m in t.value.members && m.MethodMember? && IsMatchingOverload(assignable, m, name.value, parameters.value, false))
  {
    GetGenericMethods(assignable, t, name, parameters, false)
  }

  /**
   * GetGenericMethod(type, name, parameters, allowSubstitution): SingleOrDefault of the
   * matching methods, so null when none matches and InvalidOperationException when several do.
   */
  function GetGenericMethod(assignable: Assignability, t: Option<TypeDesc>, name: Option<string>,
                            parameters: Option<seq<ClrType>>, sub: bool): (r: Result<Option<Method>>)
    ensures GetGenericMethods(assignable, t, name, parameters, sub).Err? ==> r == Err(GetGenericMethods(assignable, t, name, parameters, sub).error)
    ensures GetGenericMethods(assignable, t, name, parameters, sub).Ok? ==>
      var found := GetGenericMethods(assignable, t, name, parameters, sub).value;
      && (r == Ok(None) <==> found == [])
      && (r == Err(InvalidOperation) <==> |found| > 1)
      && (r.Ok? && r.value.Some? ==> found == [r.value.value])
  {
    var found := GetGenericMethods(assignable, t, name, parameters, sub);
    if found.Err? then Err(found.error) else SingleOrDefault(found.value)
  }

  /** The overload without allowSubstitution. */
  function GetGenericMethodExact(assignable: Assignability, t: Option<TypeDesc>, name: Option<string>,
                                 parameters: Option<seq<ClrType>>): (r: Result<Option<Method>>)
    ensures var found := GetGenericMethodsExact(assignable, t, name, parameters);
      && (found.Err? ==> r == Err(found.error))
      && (found.Ok? ==> (r == Ok(None) <==> found.value == []))
      && (found.Ok? ==> (r == Err(InvalidOperation) <==> |found.value| > 1))
      && (found.Ok? && r.Ok? && r.value.Some? ==> found.value == [r.value.value])
  {
    GetGenericMethod(assignable, t, name, parameters, false)
  }
}
