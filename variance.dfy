/** TypeExtensions.CanBeCastTo and the Variance enumeration. */
module VarianceChecks {
  import opened Reflection

  /** The direction of a type check. */
  datatype Variance = Invariant | Covariant | Contravariant

  /**
   * Whether a value of sourceType can be used where targetType is expected, under the
   * given variance: identity, target-accepts-source, or source-accepts-target.
   */
  function CanBeCastTo(assignable: Assignability, sourceType: ClrType, targetType: ClrType, variance: Variance): (r: bool)
    ensures variance == Invariant ==> (r <==> sourceType == targetType)
    ensures variance == Covariant ==> (r <==> assignable(targetType, sourceType))
    ensures variance == Contravariant ==> (r <==> assignable(sourceType, targetType))
  {
    if variance == Invariant then sourceType == targetType
    else if variance == Covariant then assignable(targetType, sourceType)
    else assignable(sourceType, targetType)
  }

  /** A contravariant check is the covariant check with the two types exchanged. */
  lemma ContravariantIsSwappedCovariant(assignable: Assignability, s: ClrType, t: ClrType)
    ensures CanBeCastTo(assignable, s, t, Contravariant) == CanBeCastTo(assignable, t, s, Covariant)
  {
  }

  /** For a reflexive IsAssignableFrom, an invariant cast is also possible covariantly and contravariantly. */
  lemma InvariantImpliesBoth(assignable: Assignability, s: ClrType, t: ClrType)
    requires forall x :: assignable(x, x)
    requires CanBeCastTo(assignable, s, t, Invariant)
    ensures CanBeCastTo(assignable, s, t, Covariant) && CanBeCastTo(assignable, s, t, Contravariant)
  {
  }

  /** The three answers the type-extension tests expect for int and object. */
  lemma IntAndObjectCasts(assignable: Assignability)
    requires PrimitiveRules(assignable)
    ensures CanBeCastTo(assignable, Int32Type, Int32Type, Invariant)
    ensures !CanBeCastTo(assignable, Int32Type, ObjectType, Invariant)
    ensures CanBeCastTo(assignable, Int32Type, ObjectType, Covariant)
    ensures CanBeCastTo(assignable, ObjectType, Int32Type, Contravariant)
    ensures !CanBeCastTo(assignable, ObjectType, Int32Type, Covariant)
  {
    assert IsSealedBuiltin(Int32Type);
  }
}
