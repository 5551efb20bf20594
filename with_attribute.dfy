/**
 * TypeExtensions.WithAttribute: filtering reflection objects by the attributes declared on
 * them (not inherited ones), optionally requiring one of those attributes to satisfy a predicate.
 */
module WithAttributes {
  import opened Wrappers
  import opened Linq
  import opened Reflection

  /** GetCustomAttributes(typeof(TAttribute), false).Any() as a predicate on elements. */
  function DeclaresAttribute<T(!new)>(attributesOf: T -> seq<Attribute>, a: AttributeType): (f: T -> bool)
    ensures forall x :: f(x) == HasAttribute(attributesOf(x), a)
  {
    (x: T) => HasAttribute(attributesOf(x), a)
  }

  /** The attributes declared on a type, a method and a property. */
  function TypeAttributes(t: TypeDesc): seq<Attribute> { t.attributes }
  function MethodAttributes(m: Method): seq<Attribute> { m.attributes }
  function PropertyAttributes(q: Property): seq<Attribute> { q.attributes }

  /** WithAttributeImpl(sequence, false): the elements declaring at least one attribute of the class. */
  function WithAttributeImpl<T(!new)>(s: seq<T>, attributesOf: T -> seq<Attribute>, a: AttributeType): (r: seq<T>)
    ensures forall x :: x in r <==> x in s && HasAttribute(attributesOf(x), a)
    ensures Subsequence(r, s)
  {
    FilterIsSubsequence(s, DeclaresAttribute(attributesOf, a));
    Filter(s, DeclaresAttribute(attributesOf, a))
  }

  /** WithAttribute<TAttribute, TMemberInfo>(sequence): ArgumentNullException for a null sequence. */
  function WithAttribute<T(!new)>(s: Option<seq<T>>, attributesOf: T -> seq<Attribute>, a: AttributeType): (r: Result<seq<T>>)
    ensures s.None? <==> r == Err(ArgumentNull("sequence"))
    ensures s.Some? ==> r.Ok? && forall x :: x in r.value <==> x in s.value && HasAttribute(attributesOf(x), a)
    ensures s.Some? ==> r.Ok? && Subsequence(r.value, s.value)
  {
    if s.None? then Err(ArgumentNull("sequence")) else Ok(WithAttributeImpl(s.value, attributesOf, a))
  }

  /** Some attribute of the class declared on x satisfies the predicate (SelectAttribute followed by Any). */
  predicate HasMatchingAttribute<T>(x: T, attributesOf: T -> seq<Attribute>, a: AttributeType, p: Attribute -> bool): (b: bool)
    ensures b ==> HasAttribute(attributesOf(x), a)
  {
    MatchingAttributeIsAttribute(x, attributesOf, a, p);
    Any(AttributesOfType(attributesOf(x), a), p)
  }

  /** HasMatchingAttribute as a predicate on elements. */
  function DeclaresMatchingAttribute<T(!new)>(attributesOf: T -> seq<Attribute>, a: AttributeType, p: Attribute -> bool): (f: T -> bool)
    ensures forall x :: f(x) == HasMatchingAttribute(x, attributesOf, a, p)
  {
    (x: T) => HasMatchingAttribute(x, attributesOf, a, p)
  }

  /**
   * WithAttribute<TAttribute, TMemberInfo>(sequence, predicate): ArgumentNullException for a
   * null sequence, then for a null predicate; otherwise the plain result further filtered.
   */
  function WithAttributeWhere<T(!new)>(s: Option<seq<T>>, attributesOf: T -> seq<Attribute>, a: AttributeType,
                                      p: Option<Attribute -> bool>): (r: Result<seq<T>>)
    ensures s.None? ==> r == Err(ArgumentNull("sequence"))
    ensures s.Some? && p.None? ==> r == Err(ArgumentNull("predicate"))
    ensures s.Some? && p.Some? ==> r.Ok? && Subsequence(r.value, s.value)
    ensures s.Some? && p.Some? ==>
      forall x :: x in r.value <==> x in s.value && HasMatchingAttribute(x, attributesOf, a, p.value)
  {
    if s.None? then Err(ArgumentNull("sequence"))
    else if p.None? then Err(ArgumentNull("predicate"))
    else
      WhereIsOneFilter(s.value, attributesOf, a, p.value);
      FilterIsSubsequence(s.value, DeclaresMatchingAttribute(attributesOf, a, p.value));
      Ok(Filter(WithAttribute(s, attributesOf, a).value, DeclaresMatchingAttribute(attributesOf, a, p.value)))
  }

  /** An attribute satisfying the predicate is in particular an attribute of the class. */
  lemma MatchingAttributeIsAttribute<T>(x: T, attributesOf: T -> seq<Attribute>, a: AttributeType, p: Attribute -> bool)
    ensures Any(AttributesOfType(attributesOf(x), a), p) ==> HasAttribute(attributesOf(x), a)
  {
    var sel := AttributesOfType(attributesOf(x), a);
    if Any(sel, p) {
      var i :| 0 <= i < |sel| && p(sel[i]);
      assert sel[i] in sel;
      var j :| 0 <= j < |attributesOf(x)| && attributesOf(x)[j] == sel[i];
    }
  }

  /** The predicate form keeps, in order, exactly the elements with a matching attribute of the class. */
  lemma {:induction false} WhereIsOneFilter<T(!new)>(s: seq<T>, attributesOf: T -> seq<Attribute>, a: AttributeType,
                                                    p: Attribute -> bool)
    ensures Filter(WithAttributeImpl(s, attributesOf, a), DeclaresMatchingAttribute(attributesOf, a, p)) ==
            Filter(s, DeclaresMatchingAttribute(attributesOf, a, p))
  {
    if s != [] {
      WhereIsOneFilter(s[1..], attributesOf, a, p);
      var head := if HasAttribute(attributesOf(s[0]), a) then [s[0]] else [];
      assert WithAttributeImpl(s, attributesOf, a) == head + WithAttributeImpl(s[1..], attributesOf, a);
      FilterConcat(head, WithAttributeImpl(s[1..], attributesOf, a), DeclaresMatchingAttribute(attributesOf, a, p));
    }
  }

  /**
   * GetCustomAttributes(typeof(TAttribute), false) also reports attributes of subclasses of
   * TAttribute, so an element declaring one is kept.
   */
  lemma SubclassAttributeIsKept<T(!new)>(s: seq<T>, attributesOf: T -> seq<Attribute>, x: T, i: nat, a: AttributeType)
    requires x in s && i < |attributesOf(x)| && IsA(attributesOf(x)[i].attributeType, a)
    ensures x in WithAttributeImpl(s, attributesOf, a)
  {
  }

  /** Applying WithAttribute for A and then for B keeps, in order, exactly the elements declaring both. */
  lemma {:induction false} ChainedWithAttribute<T(!new)>(s: seq<T>, attributesOf: T -> seq<Attribute>, a: AttributeType, b: AttributeType)
    ensures WithAttributeImpl(WithAttributeImpl(s, attributesOf, a), attributesOf, b) ==
            Filter(s, (x: T) => HasAttribute(attributesOf(x), a) && HasAttribute(attributesOf(x), b))
  {
    if s != [] {
      ChainedWithAttribute(s[1..], attributesOf, a, b);
      var head := if HasAttribute(attributesOf(s[0]), a) then [s[0]] else [];
      assert WithAttributeImpl(s, attributesOf, a) == head + WithAttributeImpl(s[1..], attributesOf, a);
      FilterConcat(head, WithAttributeImpl(s[1..], attributesOf, a), DeclaresAttribute(attributesOf, b));
    }
  }

  /** The Type overloads: attributes declared on the type. */
  function TypesWithAttribute(s: Option<seq<TypeDesc>>, a: AttributeType): (r: Result<seq<TypeDesc>>)
    ensures s.None? <==> r.Err?
    ensures s.Some? ==> r.Ok? && forall t :: t in r.value <==> t in s.value && HasAttribute(t.attributes, a)
  {
    WithAttribute(s, TypeAttributes, a)
  }

  function TypesWithAttributeWhere(s: Option<seq<TypeDesc>>, a: AttributeType, p: Option<Attribute -> bool>): (r: Result<seq<TypeDesc>>)
    ensures r.Err? <==> s.None? || p.None?
    ensures r.Ok? ==> forall t :: t in r.value <==> t in s.value && HasMatchingAttribute<TypeDesc>(t, TypeAttributes, a, p.value)
  {
    WithAttributeWhere(s, TypeAttributes, a, p)
  }

  /** The MethodInfo overloads: attributes declared on the method. */
  function MethodsWithAttribute(s: Option<seq<Method>>, a: AttributeType): (r: Result<seq<Method>>)
    ensures s.None? <==> r.Err?
    ensures s.Some? ==> r.Ok? && forall m :: m in r.value <==> m in s.value && HasAttribute(m.attributes, a)
  {
    WithAttribute(s, MethodAttributes, a)
  }

  function MethodsWithAttributeWhere(s: Option<seq<Method>>, a: AttributeType, p: Option<Attribute -> bool>): (r: Result<seq<Method>>)
    ensures r.Err? <==> s.None? || p.None?
    ensures r.Ok? ==> forall m :: m in r.value <==> m in s.value && HasMatchingAttribute<Method>(m, MethodAttributes, a, p.value)
  {
    WithAttributeWhere(s, MethodAttributes, a, p)
  }

  /** The PropertyInfo overloads: attributes declared on the property. */
  function PropertiesWithAttribute(s: Option<seq<Property>>, a: AttributeType): (r: Result<seq<Property>>)
    ensures s.None? <==> r.Err?
    ensures s.Some? ==> r.Ok? && forall q :: q in r.value <==> q in s.value && HasAttribute(q.attributes, a)
  {
    WithAttribute(s, PropertyAttributes, a)
  }

  function PropertiesWithAttributeWhere(s: Option<seq<Property>>, a: AttributeType, p: Option<Attribute -> bool>): (r: Result<seq<Property>>)
    ensures r.Err? <==> s.None? || p.None?
    ensures r.Ok? ==> forall q :: q in r.value <==> q in s.value && HasMatchingAttribute<Property>(q, PropertyAttributes, a, p.value)
  {
    WithAttributeWhere(s, PropertyAttributes, a, p)
  }
}
