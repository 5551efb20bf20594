/** TypeExtensions.IsExtensionMethod (both overloads) and GetTypeOfExtensionMethod. */
module ExtensionMethods {
  import opened Wrappers
  import opened Reflection

  /**
   * IsExtensionMethod(method, type): a static method of a sealed type, carrying
   * ExtensionAttribute, with at least one parameter; when a type is given, the first
   * parameter's type must be exactly that type.
   */
  predicate IsExtensionMethod(m: Method, t: Option<ClrType>)
  {
    if !m.isStatic then false
    else if !m.declaringTypeIsSealed then false
    else if !HasAttribute(m.attributes, ExtensionAttribute) then false
    else if |m.parameters| == 0 then false
    else if t.None? then true
    else m.parameters[0] == t.value
  }

  /** Each of the four checks is necessary, and together they suffice when no type is given. */
  lemma ExtensionMethodChecks(m: Method)
    ensures !m.isStatic ==> !IsExtensionMethod(m, None)
    ensures !m.declaringTypeIsSealed ==> !IsExtensionMethod(m, None)
    ensures !HasAttribute(m.attributes, ExtensionAttribute) ==> !IsExtensionMethod(m, None)
    ensures m.parameters == [] ==> !IsExtensionMethod(m, None)
    ensures IsExtensionMethod(m, None) <==>
      m.isStatic && m.declaringTypeIsSealed && HasAttribute(m.attributes, ExtensionAttribute) && |m.parameters| > 0
  {
  }

  /** With a type given, the method qualifies iff it qualifies without one and its first parameter is that type. */
  lemma ExtensionMethodOnType(m: Method, t: ClrType)
    ensures IsExtensionMethod(m, Some(t)) <==> IsExtensionMethod(m, None) && m.parameters[0] == t
  {
  }

  /** GetTypeOfExtensionMethod: the first parameter's type, or ArgumentException for a method that is not an extension method. */
  function GetTypeOfExtensionMethod(m: Method): (r: Result<ClrType>)
    ensures r.Err? <==> !IsExtensionMethod(m, None)
    ensures r.Err? ==> r.error == Argument
    ensures r.Ok? ==> IsExtensionMethod(m, Some(r.value))
  {
    if !IsExtensionMethod(m, None) then Err(Argument) else Ok(m.parameters[0])
  }

  /** The type GetTypeOfExtensionMethod reports is the only type the method extends. */
  lemma ExtendedTypeIsUnique(m: Method, t: ClrType)
    ensures IsExtensionMethod(m, Some(t)) <==> GetTypeOfExtensionMethod(m) == Ok(t)
  {
  }
}
