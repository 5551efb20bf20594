/** TypeExtensions.GetOperators, GetExplicitOperators and GetImplicitOperators. */
module Operators {
  import opened Wrappers
  import opened Linq
  import opened Reflection

  const OperatorPrefix := "op_"
  const ExplicitName := "op_Explicit"
  const ImplicitName := "op_Implicit"

  /** The operator methods: the public static methods whose name starts with "op_", in GetMethods order. */
  function GetOperators(t: TypeDesc): (r: seq<Method>)
    ensures forall m :: m in r <==> m in PublicMethods(t) && m.isStatic && StartsWith(m.name, OperatorPrefix)
  {
    OperatorsAmong(PublicMethods(t))
  }

  /** Where(x => x.IsStatic).Where(x => x.Name.StartsWith("op_")). */
  function OperatorsAmong(ms: seq<Method>): seq<Method>
  {
    Filter(Filter(ms, (m: Method) => m.isStatic), (m: Method) => StartsWith(m.name, OperatorPrefix))
  }

  predicate IsOperator(m: Method)
  {
    m.isStatic && StartsWith(m.name, OperatorPrefix)
  }

  /** The two filters are one filter by their conjunction, so the operators keep their relative order. */
  lemma {:induction false} OperatorsAmongInOrder(ms: seq<Method>)
    ensures OperatorsAmong(ms) == Filter(ms, IsOperator)
  {
    if ms != [] {
      OperatorsAmongInOrder(ms[1..]);
      var head := if ms[0].isStatic then [ms[0]] else [];
      FilterConcat(head, Filter(ms[1..], (m: Method) => m.isStatic), (m: Method) => StartsWith(m.name, OperatorPrefix));
    }
  }

  /** The operators named op_Explicit. */
  function GetExplicitOperators(t: TypeDesc): (r: seq<Method>)
    ensures forall m :: m in r <==> m in GetOperators(t) && m.name == ExplicitName
    ensures Subsequence(r, GetOperators(t))
  {
    FilterIsSubsequence(GetOperators(t), (m: Method) => m.name == ExplicitName);
    Filter(GetOperators(t), (m: Method) => m.name == ExplicitName)
  }

  /** The op_Explicit operators whose return type is exactly returnType. */
  function GetExplicitOperatorsReturning(t: TypeDesc, returnType: ClrType): (r: seq<Method>)
    ensures forall m :: m in r <==> m in GetExplicitOperators(t) && m.returnType == returnType
    ensures Subsequence(r, GetExplicitOperators(t))
  {
    FilterIsSubsequence(GetExplicitOperators(t), (m: Method) => m.returnType == returnType);
    Filter(GetExplicitOperators(t), (m: Method) => m.returnType == returnType)
  }

  /** The operators named op_Implicit. */
  function GetImplicitOperators(t: TypeDesc): (r: seq<Method>)
    ensures forall m :: m in r <==> m in GetOperators(t) && m.name == ImplicitName
    ensures Subsequence(r, GetOperators(t))
  {
    FilterIsSubsequence(GetOperators(t), (m: Method) => m.name == ImplicitName);
    Filter(GetOperators(t), (m: Method) => m.name == ImplicitName)
  }

  /** The op_Implicit operators whose return type is exactly returnType. */
  function GetImplicitOperatorsReturning(t: TypeDesc, returnType: ClrType): (r: seq<Method>)
    ensures forall m :: m in r <==> m in GetImplicitOperators(t) && m.returnType == returnType
    ensures Subsequence(r, GetImplicitOperators(t))
  {
    FilterIsSubsequence(GetImplicitOperators(t), (m: Method) => m.returnType == returnType);
    Filter(GetImplicitOperators(t), (m: Method) => m.returnType == returnType)
  }

  /** Every operator is a public static method of the type, so an op_-named instance method is never one. */
  lemma OperatorsArePublicStatic(t: TypeDesc, m: Method)
    requires m in GetOperators(t)
    ensures m in t.members && m.isPublic && m.isStatic && m.name[..3] == "op_"
  {
    PublicMethodsAre(t);
  }

  /** GetOperators keeps the order of GetMethods(). */
  lemma GetOperatorsInOrder(t: TypeDesc)
    ensures GetOperators(t) == Filter(PublicMethods(t), IsOperator)
  {
    OperatorsAmongInOrder(PublicMethods(t));
  }

  /** No method is both an explicit and an implicit operator. */
  lemma ExplicitAndImplicitDisjoint(t: TypeDesc)
    ensures forall m :: !(m in GetExplicitOperators(t) && m in GetImplicitOperators(t))
  {
  }

  /** Both operator kinds are named with the operator prefix, so the prefix filter never drops one of them. */
  lemma ConversionNamesHavePrefix()
    ensures StartsWith(ExplicitName, OperatorPrefix) && StartsWith(ImplicitName, OperatorPrefix)
  {
  }

  /** The op_Explicit operators are exactly the public static methods with that name. */
  lemma ExplicitOperatorsAreNamedStatics(t: TypeDesc)
    ensures forall m :: m in GetExplicitOperators(t) <==> m in t.members && m.MethodMember? && m.isPublic && m.isStatic && m.name == ExplicitName
  {
    PublicMethodsAre(t);
    ConversionNamesHavePrefix();
  }

  /** The op_Implicit operators are exactly the public static methods with that name. */
  lemma ImplicitOperatorsAreNamedStatics(t: TypeDesc)
    ensures forall m :: m in GetImplicitOperators(t) <==> m in t.members && m.MethodMember? && m.isPublic && m.isStatic && m.name == ImplicitName
  {
    PublicMethodsAre(t);
    ConversionNamesHavePrefix();
  }
}
