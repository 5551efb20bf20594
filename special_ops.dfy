/**
 * The fallback table TinyReflectiveToolkit.Contracts.SpecialOps.SpecialOperations: the public
 * static entries of Operators.cs and Conversions.cs, IdentityMarker, and the two lookups
 * GetSpecialConversion and GetSpecialOperator over that table, with OtherWhere.Where.
 */
module SpecialOps {
  import opened Wrappers
  import opened Linq
  import opened Reflection
  import opened WithAttributes

  const ObsoleteTag := Attribute(ObsoleteAttribute, None)
  const SpecialConversionTag := Attribute(SpecialConversionAttribute, None)
  /** [SpecialOperator(typeof(AdditionAttribute))]. */
  const AdditionTag := Attribute(SpecialOperatorAttribute, Some(AttributeClass(AdditionAttribute)))
  /** typeof(AdditionAttribute), the marker of every operator entry. */
  const AdditionMarker := AttributeClass(AdditionAttribute)

  /** typeof(TinyReflectiveToolkit.Contracts.SpecialOps.SpecialOperations). */
  const SpecialOperationsType := Named(10)

  /** A public static method of a static (hence sealed) class. */
  function StaticMethodOf(declaringType: ClrType, name: string, parameters: seq<ClrType>, returnType: ClrType,
                          attributes: seq<Attribute>): Method
  {
    MethodMember(declaringType, name, true, true, attributes, parameters, returnType, true)
  }

  /** A public static method of SpecialOperations. */
  function Entry(name: string, parameters: seq<ClrType>, returnType: ClrType, attributes: seq<Attribute>): Method
  {
    StaticMethodOf(SpecialOperationsType, name, parameters, returnType, attributes)
  }

  /** An entry of Operators.cs: tagged SpecialOperator(typeof(AdditionAttribute)) and Obsolete. */
  function Operator(name: string, left: ClrType, right: ClrType, returnType: ClrType): Method
  {
    Entry(name, [left, right], returnType, [AdditionTag, ObsoleteTag])
  }

  function Add(left: ClrType, right: ClrType, returnType: ClrType): Method
  {
    Operator("Add", left, right, returnType)
  }

  /** An entry of Conversions.cs: tagged SpecialConversion and Obsolete. */
  function Conversion(name: string, source: ClrType, target: ClrType): Method
  {
    Entry(name, [source], target, [SpecialConversionTag, ObsoleteTag])
  }

  /** IdentityMarker(): no parameters, no attributes. */
  const IdentityMarker: Method := Entry("IdentityMarker", [], VoidType, [])

  /** Concat(object, string) at Operators.cs:13-18 and Concat(string, object) at 26-31. */
  const ConcatObjectString: Method := Operator("Concat", ObjectType, StringType, StringType)
  const ConcatStringObject: Method := Operator("Concat", StringType, ObjectType, StringType)
  const AddInt32Int32: Method := Add(Int32Type, Int32Type, Int32Type)

  /** The first five operator entries, in file order. */
  const LeadingOperators: seq<Method> := [
    ConcatObjectString, ConcatStringObject,
    Add(ByteType, ByteType, Int32Type), Add(CharType, CharType, Int32Type), AddInt32Int32]

  /** The remaining eighteen operator entries, in file order. */
  const TrailingOperators: seq<Method> := [
    Add(SingleType, SingleType, SingleType), Add(DoubleType, DoubleType, DoubleType),
    Add(ByteType, CharType, Int32Type), Add(CharType, ByteType, Int32Type),
    Add(ByteType, Int32Type, Int32Type), Add(Int32Type, ByteType, Int32Type),
    Add(ByteType, SingleType, SingleType), Add(SingleType, ByteType, SingleType),
    Add(ByteType, DoubleType, DoubleType), Add(DoubleType, ByteType, DoubleType),
    Add(CharType, Int32Type, Int32Type), Add(Int32Type, CharType, Int32Type),
    Add(Int32Type, SingleType, SingleType), Add(SingleType, Int32Type, SingleType),
    Add(Int32Type, DoubleType, DoubleType), Add(DoubleType, Int32Type, DoubleType),
    Add(SingleType, DoubleType, DoubleType), Add(DoubleType, SingleType, DoubleType)]

  const OperatorEntries: seq<Method> := LeadingOperators + TrailingOperators

  /** Conversions.cs, one block per target type, sources in the file's order. */
  const ToDoubleEntries: seq<Method> := [
    Conversion("ToDouble", SingleType, DoubleType), Conversion("ToDouble", Int32Type, DoubleType),
    Conversion("ToDouble", CharType, DoubleType), Conversion("ToDouble", ByteType, DoubleType)]
  const ToFloatEntries: seq<Method> := [
    Conversion("ToFloat", DoubleType, SingleType), Conversion("ToFloat", Int32Type, SingleType),
    Conversion("ToFloat", CharType, SingleType), Conversion("ToFloat", ByteType, SingleType)]
  const ToIntEntries: seq<Method> := [
    Conversion("ToInt", DoubleType, Int32Type), Conversion("ToInt", SingleType, Int32Type),
    Conversion("ToInt", CharType, Int32Type), Conversion("ToInt", ByteType, Int32Type)]
  const ToCharEntries: seq<Method> := [
    Conversion("ToChar", DoubleType, CharType), Conversion("ToChar", SingleType, CharType),
    Conversion("ToChar", Int32Type, CharType), Conversion("ToChar", ByteType, CharType)]
  const ToByteEntries: seq<Method> := [
    Conversion("ToByte", DoubleType, ByteType), Conversion("ToByte", SingleType, ByteType),
    Conversion("ToByte", Int32Type, ByteType), Conversion("ToByte", CharType, ByteType)]

  const ConversionEntries: seq<Method> := ToDoubleEntries + ToFloatEntries + ToIntEntries + ToCharEntries + ToByteEntries

  /**
   * typeof(SpecialOperations).GetMethods(): the operators, the conversions, then IdentityMarker.
   * The untagged public methods inherited from System.Object are left out; no lookup selects them.
   */
  const Table: seq<Method> := OperatorEntries + ConversionEntries + [IdentityMarker]

  /** IdentityMarkerMethodInfo: Single(m => m.Name == "IdentityMarker") over the table, which succeeds. */
  function IdentityMarkerMethodInfo(): (r: Result<Method>)
    ensures r == Ok(IdentityMarker)
  {
    OnlyIdentityMarkerIsNamedSo();
    Single(Filter(Table, NamedAs("IdentityMarker")))
  }

  // ---- predicates the lookups filter by ----

  function HasArity(n: nat): (f: Method -> bool)
    ensures forall m :: f(m) == (|m.parameters| == n)
  {
    (m: Method) => |m.parameters| == n
  }

  function FirstParameterIs(t: ClrType): (f: Method -> bool)
    ensures forall m :: f(m) == (|m.parameters| > 0 && m.parameters[0] == t)
  {
    (m: Method) => |m.parameters| > 0 && m.parameters[0] == t
  }

  /** OtherWhere.Where(sequence, predicate1, predicate2): the elements satisfying either predicate, in order. */
  function OtherWhere<T(!new)>(s: seq<T>, p1: T -> bool, p2: T -> bool): (r: seq<T>)
    ensures forall x :: x in r <==> x in s && (p1(x) || p2(x))
    ensures forall x :: x in r ==> x in s
  {
    Filter(s, (x: T) => p1(x) || p2(x))
  }

  /** OtherWhere keeps the original order: it is the filter by the disjunction. */
  lemma {:induction false} OtherWhereInOrder<T(!new)>(s: seq<T>, p1: T -> bool, p2: T -> bool, either: T -> bool)
    requires forall x :: either(x) == (p1(x) || p2(x))
    ensures OtherWhere(s, p1, p2) == Filter(s, either)
  {
    FilterSamePredicate(s, (x: T) => p1(x) || p2(x), either);
  }

  // ---- GetSpecialConversion ----

  /** An entry GetSpecialConversion(source, target) may return. */
  predicate IsConversionFor(m: Method, source: ClrType, target: ClrType)
  {
    HasAttribute(m.attributes, SpecialConversionAttribute) && m.parameters == [source] && m.returnType == target
  }

  /**
   * The lookup of GetSpecialConversion(source, target) over a class's GetMethods(): the
   * SpecialConversion entries with one parameter of exactly the source type and a return type
   * of exactly the target type; SingleOrDefault, so null for none and
   * InvalidOperationException for several.
   */
  function ConversionLookup(table: seq<Method>, source: ClrType, target: ClrType): (r: Result<Option<Method>>)
    ensures r.Err? ==> r.error == InvalidOperation
    ensures r.Ok? && r.value.Some? ==> r.value.value in table && IsConversionFor(r.value.value, source, target)
    ensures r == Ok(None) <==> forall m :: m in table ==> !IsConversionFor(m, source, target)
    ensures r.Err? <==> |ConversionCandidates(table, source, target)| > 1
  {
    var candidates := ConversionCandidates(table, source, target);
    assert candidates != [] ==> candidates[0] in candidates;
    SingleOrDefault(candidates)
  }

  /** The list the lookup applies SingleOrDefault to. */
  function ConversionCandidates(table: seq<Method>, source: ClrType, target: ClrType): (r: seq<Method>)
    ensures forall m :: m in r <==> m in table && IsConversionFor(m, source, target)
  {
    var tagged := MethodsWithAttribute(Some(table), SpecialConversionAttribute).value;
    Filter(Filter(Filter(tagged, HasArity(1)), FirstParameterIs(source)), ReturnsExactly(target))
  }

  /** GetSpecialConversion of SpecialOps.SpecialOperations. */
  function GetSpecialConversion(source: ClrType, target: ClrType): Result<Option<Method>>
  {
    ConversionLookup(Table, source, target)
  }

  /** Every entry of Conversions.cs has one parameter, a different return type, and the SpecialConversion tag. */
  lemma ConversionEntriesShape()
    ensures forall m :: m in ConversionEntries ==>
      m.attributes == [SpecialConversionTag, ObsoleteTag] && |m.parameters| == 1 && m.parameters[0] != m.returnType
  {
    ToDoubleShape();
    ToFloatShape();
    ToIntShape();
    ToCharShape();
    ToByteShape();
  }

  /** Every public entry of Operators.cs has two parameters and the SpecialOperator(typeof(AdditionAttribute)) tag. */
  lemma OperatorEntriesShape()
    ensures forall m :: m in OperatorEntries ==> m.attributes == [AdditionTag, ObsoleteTag] && |m.parameters| == 2
  {
    LeadingShape();
    TrailingShape();
  }

  lemma LeadingShape()
    ensures forall m :: m in LeadingOperators ==> m.attributes == [AdditionTag, ObsoleteTag] && |m.parameters| == 2
  {
  }

  lemma TrailingShape()
    ensures forall m :: m in TrailingOperators ==> m.attributes == [AdditionTag, ObsoleteTag] && |m.parameters| == 2
  {
  }

  /** The parameter and return type of a one-parameter entry. */
  function ConversionKey(m: Method): (ClrType, ClrType)
  {
    (if |m.parameters| > 0 then m.parameters[0] else VoidType, m.returnType)
  }

  /** Appending a block of entries that all return a type no earlier entry returns keeps the keys distinct. */
  lemma AppendTargetBlock(a: seq<Method>, block: seq<Method>, target: ClrType)
    requires KeysDistinct(a, ConversionKey) && KeysDistinct(block, ConversionKey)
    requires forall i :: 0 <= i < |a| ==> a[i].returnType != target
    requires forall j :: 0 <= j < |block| ==> block[j].returnType == target
    ensures KeysDistinct(a + block, ConversionKey)
  {
    KeysDistinctConcat(a, block, ConversionKey);
  }

  lemma ToDoubleShape()
    ensures KeysDistinct(ToDoubleEntries, ConversionKey)
    ensures forall j :: 0 <= j < |ToDoubleEntries| ==> ToDoubleEntries[j].returnType == DoubleType
    ensures forall m :: m in ToDoubleEntries ==>
      m.attributes == [SpecialConversionTag, ObsoleteTag] && |m.parameters| == 1 && m.parameters[0] != m.returnType
  {
  }

  lemma ToFloatShape()
    ensures KeysDistinct(ToFloatEntries, ConversionKey)
    ensures forall j :: 0 <= j < |ToFloatEntries| ==> ToFloatEntries[j].returnType == SingleType
    ensures forall m :: m in ToFloatEntries ==>
      m.attributes == [SpecialConversionTag, ObsoleteTag] && |m.parameters| == 1 && m.parameters[0] != m.returnType
  {
  }

  lemma ToIntShape()
    ensures KeysDistinct(ToIntEntries, ConversionKey)
    ensures forall j :: 0 <= j < |ToIntEntries| ==> ToIntEntries[j].returnType == Int32Type
    ensures forall m :: m in ToIntEntries ==>
      m.attributes == [SpecialConversionTag, ObsoleteTag] && |m.parameters| == 1 && m.parameters[0] != m.returnType
  {
  }

  lemma ToCharShape()
    ensures KeysDistinct(ToCharEntries, ConversionKey)
    ensures forall j :: 0 <= j < |ToCharEntries| ==> ToCharEntries[j].returnType == CharType
    ensures forall m :: m in ToCharEntries ==>
      m.attributes == [SpecialConversionTag, ObsoleteTag] && |m.parameters| == 1 && m.parameters[0] != m.returnType
  {
  }

  lemma ToByteShape()
    ensures KeysDistinct(ToByteEntries, ConversionKey)
    ensures forall j :: 0 <= j < |ToByteEntries| ==> ToByteEntries[j].returnType == ByteType
    ensures forall m :: m in ToByteEntries ==>
      m.attributes == [SpecialConversionTag, ObsoleteTag] && |m.parameters| == 1 && m.parameters[0] != m.returnType
  {
  }

  /** Every entry of the prefix returns one of the given types. */
  predicate ReturnsAmong(a: seq<Method>, targets: set<ClrType>)
  {
    forall i :: 0 <= i < |a| ==> a[i].returnType in targets
  }

  lemma ReturnsAmongConcat(a: seq<Method>, b: seq<Method>, ta: set<ClrType>, tb: set<ClrType>)
    requires ReturnsAmong(a, ta) && ReturnsAmong(b, tb)
    ensures ReturnsAmong(a + b, ta + tb)
  {
    forall i | 0 <= i < |a + b| ensures (a + b)[i].returnType in ta + tb {
      if i < |a| { assert (a + b)[i] == a[i]; } else { assert (a + b)[i] == b[i - |a|]; }
    }
  }

  /** No two entries of Conversions.cs share a (source, target) signature. */
  lemma ConversionKeysDistinct()
    ensures KeysDistinct(ConversionEntries, ConversionKey)
  {
    ToDoubleShape();
    ToFloatShape();
    ToIntShape();
    ToCharShape();
    ToByteShape();
    var a1 := ToDoubleEntries;
    var a2 := a1 + ToFloatEntries;
    var a3 := a2 + ToIntEntries;
    var a4 := a3 + ToCharEntries;
    AppendTargetBlock(a1, ToFloatEntries, SingleType);
    ReturnsAmongConcat(a1, ToFloatEntries, {DoubleType}, {SingleType});
    AppendTargetBlock(a2, ToIntEntries, Int32Type);
    ReturnsAmongConcat(a2, ToIntEntries, {DoubleType, SingleType}, {Int32Type});
    AppendTargetBlock(a3, ToCharEntries, CharType);
    ReturnsAmongConcat(a3, ToCharEntries, {DoubleType, SingleType, Int32Type}, {CharType});
    AppendTargetBlock(a4, ToByteEntries, ByteType);
  }

  /** Filtering by the SpecialConversion tag keeps exactly the tagged middle part of a table. */
  lemma {:induction false} TaggedPart(before: seq<Method>, tagged: seq<Method>, after: seq<Method>)
    requires forall m :: m in before ==> !HasAttribute(m.attributes, SpecialConversionAttribute)
    requires forall m :: m in tagged ==> HasAttribute(m.attributes, SpecialConversionAttribute)
    requires forall m :: m in after ==> !HasAttribute(m.attributes, SpecialConversionAttribute)
    ensures WithAttributeImpl(before + tagged + after, MethodAttributes, SpecialConversionAttribute) == tagged
  {
    var p := DeclaresAttribute(MethodAttributes, SpecialConversionAttribute);
    FilterConcat(before + tagged, after, p);
    FilterConcat(before, tagged, p);
    FilterNone(before, p);
    FilterNone(after, p);
    forall i | 0 <= i < |tagged| ensures p(tagged[i]) {
      assert tagged[i] in tagged;
    }
    FilterKeepsAll(tagged, p);
  }

  lemma OperatorsLackConversionTag()
    ensures forall m :: m in OperatorEntries ==> !HasAttribute(m.attributes, SpecialConversionAttribute)
  {
    OperatorEntriesShape();
    assert !HasAttribute([AdditionTag, ObsoleteTag], SpecialConversionAttribute) by {
      forall i | 0 <= i < 2 ensures [AdditionTag, ObsoleteTag][i].attributeType != SpecialConversionAttribute { }
    }
  }

  lemma ConversionsCarryConversionTag()
    ensures forall m :: m in ConversionEntries ==> HasAttribute(m.attributes, SpecialConversionAttribute)
  {
    ConversionEntriesShape();
    forall m | m in ConversionEntries ensures HasAttribute(m.attributes, SpecialConversionAttribute) {
      assert m.attributes[0] == SpecialConversionTag;
    }
  }

  /** Filtering the table by the SpecialConversion tag leaves exactly the entries of Conversions.cs, in order. */
  lemma TaggedConversionsAreConversionEntries()
    ensures MethodsWithAttribute(Some(Table), SpecialConversionAttribute).value == ConversionEntries
  {
    OperatorsLackConversionTag();
    ConversionsCarryConversionTag();
    TaggedPart(OperatorEntries, ConversionEntries, [IdentityMarker]);
  }

  /** Over entries with distinct signatures the three filters leave at most one entry. */
  lemma AtMostOneCandidate(entries: seq<Method>, source: ClrType, target: ClrType)
    requires KeysDistinct(entries, ConversionKey)
    ensures |Filter(Filter(Filter(entries, HasArity(1)), FirstParameterIs(source)), ReturnsExactly(target))| <= 1
  {
    var s1 := Filter(entries, HasArity(1));
    var s2 := Filter(s1, FirstParameterIs(source));
    var s3 := Filter(s2, ReturnsExactly(target));
    FilterKeepsKeysDistinct(entries, HasArity(1), ConversionKey);
    FilterKeepsKeysDistinct(s1, FirstParameterIs(source), ConversionKey);
    FilterKeepsKeysDistinct(s2, ReturnsExactly(target), ConversionKey);
    forall i | 0 <= i < |s3| ensures ConversionKey(s3[i]) == (source, target) {
      assert s3[i] in s3;
    }
    AtMostOneWithKey(s3, ConversionKey, (source, target));
  }

  /** GetSpecialConversion never throws: no two entries of the table share a signature. */
  lemma GetSpecialConversionNeverThrows(source: ClrType, target: ClrType)
    ensures GetSpecialConversion(source, target).Ok?
  {
    TaggedConversionsAreConversionEntries();
    ConversionKeysDistinct();
    AtMostOneCandidate(ConversionEntries, source, target);
  }

  // ---- concrete GetSpecialConversion results ----

  /** Over tagged entries with distinct signatures, an entry with the requested signature is the lookup's result. */
  lemma LookupFinds(table: seq<Method>, tagged: seq<Method>, m: Method, source: ClrType, target: ClrType)
    requires MethodsWithAttribute(Some(table), SpecialConversionAttribute).value == tagged
    requires KeysDistinct(tagged, ConversionKey)
    requires m in table && IsConversionFor(m, source, target)
    ensures ConversionLookup(table, source, target) == Ok(Some(m))
  {
    AtMostOneCandidate(tagged, source, target);
    var c := ConversionCandidates(table, source, target);
    assert |c| <= 1;
    var r := ConversionLookup(table, source, target);
    assert r.Ok? && r.value.Some?;
    OnlyCandidate(c, r.value.value, m);
  }

  /** Two elements of a list of at most one element are the same. */
  lemma OnlyCandidate<T>(c: seq<T>, x: T, y: T)
    requires |c| <= 1 && x in c && y in c
    ensures x == y
  {
  }

  /** An entry of Conversions.cs with the requested signature is what GetSpecialConversion returns. */
  lemma ConversionFound(m: Method, source: ClrType, target: ClrType)
    requires m in ConversionEntries && IsConversionFor(m, source, target)
    ensures GetSpecialConversion(source, target) == Ok(Some(m))
  {
    TaggedConversionsAreConversionEntries();
    ConversionKeysDistinct();
    InMiddle(OperatorEntries, ConversionEntries, [IdentityMarker], m);
    LookupFinds(Table, ConversionEntries, m, source, target);
  }

  lemma InMiddle<T>(a: seq<T>, b: seq<T>, c: seq<T>, x: T)
    requires x in b
    ensures x in a + b + c
  {
    var i :| 0 <= i < |b| && b[i] == x;
    assert (a + b + c)[|a| + i] == x;
  }

  /** A table of two-parameter operators, one-parameter conversions to another type and IdentityMarker has no self-conversion. */
  lemma NoSelfEntries(table: seq<Method>, operators: seq<Method>, conversions: seq<Method>, t: ClrType)
    requires table == operators + conversions + [IdentityMarker]
    requires forall m :: m in operators ==> m.attributes == [AdditionTag, ObsoleteTag] && |m.parameters| == 2
    requires forall m :: m in conversions ==>
      m.attributes == [SpecialConversionTag, ObsoleteTag] && |m.parameters| == 1 && m.parameters[0] != m.returnType
    ensures forall m :: m in table ==> !IsConversionFor(m, t, t)
  {
  }

  /** No entry converts a type to itself, so GetSpecialConversion(t, t) is null. */
  lemma NoIdentityConversion(t: ClrType)
    ensures GetSpecialConversion(t, t) == Ok(None)
  {
    OperatorEntriesShape();
    ConversionEntriesShape();
    NoSelfEntries(Table, OperatorEntries, ConversionEntries, t);
  }

  /** A Conversions.cs entry is a conversion for its own parameter and return type. */
  lemma ConversionSignature(m: Method)
    requires m.attributes == [SpecialConversionTag, ObsoleteTag] && |m.parameters| == 1
    ensures IsConversionFor(m, m.parameters[0], m.returnType)
  {
    assert m.attributes[0].attributeType == SpecialConversionAttribute;
    assert m.parameters == [m.parameters[0]];
  }

  /** Conversions.cs's integral conversions to int, each found by its signature. */
  lemma ConversionsToInt()
    ensures GetSpecialConversion(ByteType, Int32Type) == Ok(Some(Conversion("ToInt", ByteType, Int32Type)))
    ensures GetSpecialConversion(CharType, Int32Type) == Ok(Some(Conversion("ToInt", CharType, Int32Type)))
  {
    InMiddle(ToDoubleEntries + ToFloatEntries, ToIntEntries, ToCharEntries + ToByteEntries, ToIntEntries[3]);
    InMiddle(ToDoubleEntries + ToFloatEntries, ToIntEntries, ToCharEntries + ToByteEntries, ToIntEntries[2]);
    assert ConversionEntries == ToDoubleEntries + ToFloatEntries + ToIntEntries + (ToCharEntries + ToByteEntries);
    ConversionSignature(ToIntEntries[3]);
    ConversionFound(ToIntEntries[3], ByteType, Int32Type);
    ConversionSignature(ToIntEntries[2]);
    ConversionFound(ToIntEntries[2], CharType, Int32Type);
  }

  /** Conversions.cs's integral conversions to char. */
  lemma ConversionsToChar()
    ensures GetSpecialConversion(Int32Type, CharType) == Ok(Some(Conversion("ToChar", Int32Type, CharType)))
    ensures GetSpecialConversion(ByteType, CharType) == Ok(Some(Conversion("ToChar", ByteType, CharType)))
  {
    var before := ToDoubleEntries + ToFloatEntries + ToIntEntries;
    InMiddle(before, ToCharEntries, ToByteEntries, ToCharEntries[2]);
    InMiddle(before, ToCharEntries, ToByteEntries, ToCharEntries[3]);
    ConversionSignature(ToCharEntries[2]);
    ConversionFound(ToCharEntries[2], Int32Type, CharType);
    ConversionSignature(ToCharEntries[3]);
    ConversionFound(ToCharEntries[3], ByteType, CharType);
  }

  /** Conversions.cs's integral conversions to byte. */
  lemma ConversionsToByte()
    ensures GetSpecialConversion(Int32Type, ByteType) == Ok(Some(Conversion("ToByte", Int32Type, ByteType)))
    ensures GetSpecialConversion(CharType, ByteType) == Ok(Some(Conversion("ToByte", CharType, ByteType)))
  {
    var before := ToDoubleEntries + ToFloatEntries + ToIntEntries + ToCharEntries;
    InMiddle(before, ToByteEntries, [], ToByteEntries[2]);
    InMiddle(before, ToByteEntries, [], ToByteEntries[3]);
    assert ConversionEntries == before + ToByteEntries + [];
    ConversionSignature(ToByteEntries[2]);
    ConversionFound(ToByteEntries[2], Int32Type, ByteType);
    ConversionSignature(ToByteEntries[3]);
    ConversionFound(ToByteEntries[3], CharType, ByteType);
  }

  /** GetSpecialConversion never returns IdentityMarker or an operator entry. */
  lemma ConversionIsAConversionEntry(source: ClrType, target: ClrType)
    ensures GetSpecialConversion(source, target).Ok? && GetSpecialConversion(source, target).value.Some? ==>
      GetSpecialConversion(source, target).value.value in ConversionEntries
  {
    TaggedConversionsAreConversionEntries();
  }

  // ---- IdentityMarkerMethodInfo ----

  /** Only the last entry of the table is named IdentityMarker. */
  lemma OnlyIdentityMarkerIsNamedSo()
    ensures Filter(Table, NamedAs("IdentityMarker")) == [IdentityMarker]
  {
    var name := "IdentityMarker";
    assert NamesAvoid(LeadingOperators, name);
    assert NamesAvoid(TrailingOperators, name);
    NamesAvoidConcat(LeadingOperators, TrailingOperators, name);
    assert NamesAvoid(ToDoubleEntries, name) && NamesAvoid(ToFloatEntries, name) && NamesAvoid(ToIntEntries, name);
    assert NamesAvoid(ToCharEntries, name) && NamesAvoid(ToByteEntries, name);
    NamesAvoidConcat(ToDoubleEntries, ToFloatEntries, name);
    NamesAvoidConcat(ToDoubleEntries + ToFloatEntries, ToIntEntries, name);
    NamesAvoidConcat(ToDoubleEntries + ToFloatEntries + ToIntEntries, ToCharEntries, name);
    NamesAvoidConcat(ToDoubleEntries + ToFloatEntries + ToIntEntries + ToCharEntries, ToByteEntries, name);
    NamesAvoidConcat(OperatorEntries, ConversionEntries, name);
    OnlyLastNamed(OperatorEntries + ConversionEntries, IdentityMarker, name);
  }

  /** No entry of s is named name (the names differ in length). */
  predicate NamesAvoid(s: seq<Method>, name: string)
  {
    forall i :: 0 <= i < |s| ==> |s[i].name| != |name|
  }

  lemma NamesAvoidConcat(a: seq<Method>, b: seq<Method>, name: string)
    requires NamesAvoid(a, name) && NamesAvoid(b, name)
    ensures NamesAvoid(a + b, name)
  {
    forall i | 0 <= i < |a + b| ensures |(a + b)[i].name| != |name| {
      if i < |a| { assert (a + b)[i] == a[i]; } else { assert (a + b)[i] == b[i - |a|]; }
    }
  }

  lemma OnlyLastNamed(before: seq<Method>, last: Method, name: string)
    requires NamesAvoid(before, name) && last.name == name
    ensures Filter(before + [last], NamedAs(name)) == [last]
  {
    var p := NamedAs(name);
    FilterConcat(before, [last], p);
    forall m | m in before ensures !p(m) {
      var i :| 0 <= i < |before| && before[i] == m;
    }
    FilterNone(before, p);
  }

  // ---- GetSpecialOperator ----

  /** x => x.Type == operatorMarker, on SpecialOperator attributes. */
  function MarkerIs(marker: ClrType): (f: Attribute -> bool)
    ensures forall a :: f(a) == (a.typeArgument == Some(marker))
  {
    (a: Attribute) => a.typeArgument == Some(marker)
  }

  /** Parameter k exists and accepts the input type when the switch is on. */
  function ParameterAccepts(assignable: Assignability, k: nat, when: bool, input: ClrType): (f: Method -> bool)
    ensures forall m :: f(m) == (when && k < |m.parameters| && assignable(m.parameters[k], input))
  {
    (m: Method) => when && k < |m.parameters| && assignable(m.parameters[k], input)
  }

  /** x => output.IsAssignableFrom(x.ReturnType). */
  function ReturnAcceptedBy(assignable: Assignability, output: ClrType): (f: Method -> bool)
    ensures forall m :: f(m) == assignable(output, m.returnType)
  {
    (m: Method) => assignable(output, m.returnType)
  }

  /** The entry carries [SpecialOperator(marker)]. */
  predicate CarriesMarker(m: Method, marker: ClrType)
  {
    exists i :: 0 <= i < |m.attributes| &&
      m.attributes[i].attributeType == SpecialOperatorAttribute && m.attributes[i].typeArgument == Some(marker)
  }

  /**
   * An entry GetSpecialOperator(marker, input1, input2, output, reverse) may return: tagged
   * with the marker, two parameters accepting the inputs (swapped when reversed), and a return
   * type the output type accepts.
   */
  predicate IsOperatorFor(assignable: Assignability, m: Method, marker: ClrType,
                          input1: ClrType, input2: ClrType, output: ClrType, reverse: bool)
  {
    && CarriesMarker(m, marker)
    && |m.parameters| == 2
    && (if reverse then assignable(m.parameters[0], input2) && assignable(m.parameters[1], input1)
        else assignable(m.parameters[0], input1) && assignable(m.parameters[1], input2))
    && assignable(output, m.returnType)
  }

  function OperatorQualifies(assignable: Assignability, marker: ClrType,
                             input1: ClrType, input2: ClrType, output: ClrType, reverse: bool): (f: Method -> bool)
    ensures forall m :: f(m) == IsOperatorFor(assignable, m, marker, input1, input2, output, reverse)
  {
    (m: Method) => IsOperatorFor(assignable, m, marker, input1, input2, output, reverse)
  }

  /** The predicate form of WithAttribute picks the entries carrying the marker. */
  lemma MatchingMarker(m: Method, marker: ClrType)
    ensures HasMatchingAttribute<Method>(m, MethodAttributes, SpecialOperatorAttribute, MarkerIs(marker)) ==
            CarriesMarker(m, marker)
  {
    var sel := AttributesOfType(m.attributes, SpecialOperatorAttribute);
    if CarriesMarker(m, marker) {
      var i :| 0 <= i < |m.attributes| &&
        m.attributes[i].attributeType == SpecialOperatorAttribute && m.attributes[i].typeArgument == Some(marker);
      assert m.attributes[i] in m.attributes;
      assert m.attributes[i] in sel;
      var j :| 0 <= j < |sel| && sel[j] == m.attributes[i];
      assert MarkerIs(marker)(sel[j]);
    }
    if Any(sel, MarkerIs(marker)) {
      var j :| 0 <= j < |sel| && MarkerIs(marker)(sel[j]);
      assert sel[j] in sel;
      SealedHasNoSubclass(sel[j].attributeType, SpecialOperatorAttribute);
      var i :| 0 <= i < |m.attributes| && m.attributes[i] == sel[j];
    }
  }

  /** One filter by two conjoined predicates. */
  function Both<T(!new)>(p: T -> bool, q: T -> bool): (f: T -> bool)
    ensures forall x :: f(x) == (p(x) && q(x))
  {
    (x: T) => p(x) && q(x)
  }

  function Either<T(!new)>(p: T -> bool, q: T -> bool): (f: T -> bool)
    ensures forall x :: f(x) == (p(x) || q(x))
  {
    (x: T) => p(x) || q(x)
  }

  /**
   * The lookup of GetSpecialOperator over a class's GetMethods(): the entries tagged
   * SpecialOperator with the marker, with two parameters, whose first and second parameters
   * accept the inputs (in reverse order when reverse is set; OtherWhere.Where), and whose
   * return type the output accepts; FirstOrDefault, so the first such entry or null.
   */
  function OperatorLookup(table: seq<Method>, assignable: Assignability, marker: ClrType,
                          input1: ClrType, input2: ClrType, output: ClrType, reverse: bool): (r: Option<Method>)
    ensures r.Some? ==> r.value in table && IsOperatorFor(assignable, r.value, marker, input1, input2, output, reverse)
    ensures r.None? <==> forall m :: m in table ==> !IsOperatorFor(assignable, m, marker, input1, input2, output, reverse)
  {
    OperatorLookupIsFirst(table, assignable, marker, input1, input2, output, reverse);
    FirstOrDefault(OperatorMatches(table, assignable, marker, input1, input2, output, reverse))
  }

  /** The list the lookup applies FirstOrDefault to. */
  function OperatorMatches(table: seq<Method>, assignable: Assignability, marker: ClrType,
                           input1: ClrType, input2: ClrType, output: ClrType, reverse: bool): seq<Method>
  {
    var tagged := MethodsWithAttributeWhere(Some(table), SpecialOperatorAttribute, Some(MarkerIs(marker))).value;
    var binary := Filter(tagged, HasArity(2));
    var first := OtherWhere(binary, ParameterAccepts(assignable, 0, !reverse, input1),
                                    ParameterAccepts(assignable, 0, reverse, input2));
    var second := OtherWhere(first, ParameterAccepts(assignable, 1, !reverse, input2),
                                    ParameterAccepts(assignable, 1, reverse, input1));
    Filter(second, ReturnAcceptedBy(assignable, output))
  }

  /** The lookup returns the first entry of the table, in GetMethods() order, that qualifies. */
  lemma OperatorLookupIsFirst(table: seq<Method>, assignable: Assignability, marker: ClrType,
                              input1: ClrType, input2: ClrType, output: ClrType, reverse: bool)
    ensures FirstOrDefault(OperatorMatches(table, assignable, marker, input1, input2, output, reverse)) ==
            FindFirst(table, OperatorQualifies(assignable, marker, input1, input2, output, reverse))
  {
    var tag := DeclaresMatchingAttribute<Method>(MethodAttributes, SpecialOperatorAttribute, MarkerIs(marker));
    var a1 := ParameterAccepts(assignable, 0, !reverse, input1);
    var b1 := ParameterAccepts(assignable, 0, reverse, input2);
    var a2 := ParameterAccepts(assignable, 1, !reverse, input2);
    var b2 := ParameterAccepts(assignable, 1, reverse, input1);
    var out := ReturnAcceptedBy(assignable, output);
    var q := OperatorQualifies(assignable, marker, input1, input2, output, reverse);
    TaggedBinary(table, marker);
    var c2 := Both<Method>(tag, HasArity(2));
    OtherWhereFold(table, c2, a1, b1);
    var c3 := Both<Method>(c2, Either<Method>(a1, b1));
    OtherWhereFold(table, c3, a2, b2);
    var c4 := Both<Method>(c3, Either<Method>(a2, b2));
    FilterFilterInto(table, c4, out, Both<Method>(c4, out));
    QualifiesUnfolded(assignable, marker, input1, input2, output, reverse);
    assert LookupFilters(assignable, marker, input1, input2, output, reverse) == Both<Method>(c4, out);
    FilterSamePredicate(table, Both<Method>(c4, out), q);
    FirstOfFilter(table, q);
  }

  /** WithAttribute(x => x.Type == marker) followed by the arity filter, as one filter. */
  lemma TaggedBinary(table: seq<Method>, marker: ClrType)
    ensures Filter(MethodsWithAttributeWhere(Some(table), SpecialOperatorAttribute, Some(MarkerIs(marker))).value, HasArity(2)) ==
            Filter(table, Both<Method>(DeclaresMatchingAttribute<Method>(MethodAttributes, SpecialOperatorAttribute, MarkerIs(marker)), HasArity(2)))
  {
    var tag := DeclaresMatchingAttribute<Method>(MethodAttributes, SpecialOperatorAttribute, MarkerIs(marker));
    WhereIsOneFilter(table, MethodAttributes, SpecialOperatorAttribute, MarkerIs(marker));
    FilterFilterInto(table, tag, HasArity(2), Both<Method>(tag, HasArity(2)));
  }

  /** OtherWhere after a filter, as one filter. */
  lemma OtherWhereFold<T(!new)>(s: seq<T>, base: T -> bool, p: T -> bool, q: T -> bool)
    ensures OtherWhere(Filter(s, base), p, q) == Filter(s, Both(base, Either(p, q)))
  {
    OtherWhereInOrder(Filter(s, base), p, q, Either(p, q));
    FilterFilterInto(s, base, Either(p, q), Both(base, Either(p, q)));
  }

  /** The conjunction of the lookup's filters, in the order they are applied. */
  function LookupFilters(assignable: Assignability, marker: ClrType,
                         input1: ClrType, input2: ClrType, output: ClrType, reverse: bool): Method -> bool
  {
    var tag := DeclaresMatchingAttribute<Method>(MethodAttributes, SpecialOperatorAttribute, MarkerIs(marker));
    var first := Either<Method>(ParameterAccepts(assignable, 0, !reverse, input1), ParameterAccepts(assignable, 0, reverse, input2));
    var second := Either<Method>(ParameterAccepts(assignable, 1, !reverse, input2), ParameterAccepts(assignable, 1, reverse, input1));
    Both<Method>(Both<Method>(Both<Method>(Both<Method>(tag, HasArity(2)), first), second), ReturnAcceptedBy(assignable, output))
  }

  /** The conjunction of the lookup's filters is IsOperatorFor. */
  lemma QualifiesUnfolded(assignable: Assignability, marker: ClrType,
                          input1: ClrType, input2: ClrType, output: ClrType, reverse: bool)
    ensures forall m :: LookupFilters(assignable, marker, input1, input2, output, reverse)(m) ==
                        OperatorQualifies(assignable, marker, input1, input2, output, reverse)(m)
  {
    forall m: Method
      ensures LookupFilters(assignable, marker, input1, input2, output, reverse)(m) ==
              OperatorQualifies(assignable, marker, input1, input2, output, reverse)(m)
    {
      MatchingMarker(m, marker);
    }
  }

  /** GetSpecialOperator of SpecialOps.SpecialOperations, the IsAssignableFrom relation given. */
  function GetSpecialOperator(assignable: Assignability, marker: ClrType,
                              input1: ClrType, input2: ClrType, output: ClrType, reverse: bool): Option<Method>
  {
    OperatorLookup(Table, assignable, marker, input1, input2, output, reverse)
  }

  // ---- concrete GetSpecialOperator results ----

  /** The entry at index i is the first to satisfy p. */
  lemma FirstAt<T(!new)>(s: seq<T>, p: T -> bool, i: nat)
    requires i < |s| && p(s[i])
    requires forall j :: 0 <= j < i ==> !p(s[j])
    ensures FindFirst(s, p) == Some(s[i])
  {
    FindFirstIsFirst(s, p);
    var k :| 0 <= k < |s| && s[k] == FindFirst(s, p).value && p(s[k]) && forall j :: 0 <= j < k ==> !p(s[j]);
    assert k == i;
  }

  /** A match in a prefix is found before anything after it. */
  lemma {:induction false} FindFirstInPrefix<T(!new)>(a: seq<T>, b: seq<T>, p: T -> bool)
    requires FindFirst(a, p).Some?
    ensures FindFirst(a + b, p) == FindFirst(a, p)
  {
    assert (a + b)[0] == a[0];
    if !p(a[0]) {
      assert (a + b)[1..] == a[1..] + b;
      FindFirstInPrefix(a[1..], b, p);
    }
  }

  /** A lookup whose table starts with lead returns the first entry of lead that qualifies. */
  lemma FoundInPrefix(lead: seq<Method>, rest: seq<Method>, assignable: Assignability, marker: ClrType,
                      input1: ClrType, input2: ClrType, output: ClrType, reverse: bool, i: nat)
    requires i < |lead|
    requires IsOperatorFor(assignable, lead[i], marker, input1, input2, output, reverse)
    requires forall j :: 0 <= j < i ==> !IsOperatorFor(assignable, lead[j], marker, input1, input2, output, reverse)
    ensures OperatorLookup(lead + rest, assignable, marker, input1, input2, output, reverse) == Some(lead[i])
  {
    var q := OperatorQualifies(assignable, marker, input1, input2, output, reverse);
    LookupIsFindFirst(lead + rest, assignable, marker, input1, input2, output, reverse);
    FirstAt(lead, q, i);
    FindFirstInPrefix(lead, rest, q);
  }

  /** OperatorLookup is FindFirst by IsOperatorFor. */
  lemma LookupIsFindFirst(table: seq<Method>, assignable: Assignability, marker: ClrType,
                          input1: ClrType, input2: ClrType, output: ClrType, reverse: bool)
    ensures OperatorLookup(table, assignable, marker, input1, input2, output, reverse) ==
            FindFirst(table, OperatorQualifies(assignable, marker, input1, input2, output, reverse))
  {
    OperatorLookupIsFirst(table, assignable, marker, input1, input2, output, reverse);
  }

  /** GetSpecialOperator as a first match over the leading five entries, once one of them qualifies. */
  lemma FoundAmongLeading(assignable: Assignability, input1: ClrType, input2: ClrType, output: ClrType, reverse: bool, i: nat)
    requires i < |LeadingOperators|
    requires IsOperatorFor(assignable, LeadingOperators[i], AdditionMarker, input1, input2, output, reverse)
    requires forall j :: 0 <= j < i ==> !IsOperatorFor(assignable, LeadingOperators[j], AdditionMarker, input1, input2, output, reverse)
    ensures GetSpecialOperator(assignable, AdditionMarker, input1, input2, output, reverse) == Some(LeadingOperators[i])
  {
    var rest := TrailingOperators + ConversionEntries + [IdentityMarker];
    RegroupFour(LeadingOperators, TrailingOperators, ConversionEntries, [IdentityMarker]);
    FoundInPrefix(LeadingOperators, rest, assignable, AdditionMarker, input1, input2, output, reverse, i);
  }

  /** Concatenation regrouped so that the first part stands alone. */
  lemma RegroupFour<T>(a: seq<T>, b: seq<T>, c: seq<T>, d: seq<T>)
    ensures a + b + c + d == a + (b + c + d)
  {
  }

  /** Each operator entry carries the Addition marker. */
  lemma OperatorCarriesAddition(left: ClrType, right: ClrType, ret: ClrType, name: string)
    ensures CarriesMarker(Operator(name, left, right, ret), AdditionMarker)
  {
    assert Operator(name, left, right, ret).attributes[0] == AdditionTag;
  }

  /** int + int: the first entry that accepts two ints is Add(int, int). */
  lemma IntPlusInt(assignable: Assignability)
    requires PrimitiveRules(assignable)
    ensures GetSpecialOperator(assignable, AdditionMarker, Int32Type, Int32Type, Int32Type, false) == Some(AddInt32Int32)
  {
    assert IsSealedBuiltin(StringType) && IsSealedBuiltin(ByteType) && IsSealedBuiltin(CharType) && IsSealedBuiltin(Int32Type);
    OperatorCarriesAddition(Int32Type, Int32Type, Int32Type, "Add");
    FoundAmongLeading(assignable, Int32Type, Int32Type, Int32Type, false, 4);
  }

  /** string + int: Concat(string, object), since Concat(object, string) needs a string on the right. */
  lemma StringPlusInt(assignable: Assignability)
    requires PrimitiveRules(assignable)
    ensures GetSpecialOperator(assignable, AdditionMarker, StringType, Int32Type, StringType, false) == Some(ConcatStringObject)
  {
    assert IsSealedBuiltin(StringType);
    OperatorCarriesAddition(StringType, ObjectType, StringType, "Concat");
    FoundAmongLeading(assignable, StringType, Int32Type, StringType, false, 1);
  }

  /** int + string: Concat(object, string), the first entry. */
  lemma IntPlusString(assignable: Assignability)
    requires PrimitiveRules(assignable)
    ensures GetSpecialOperator(assignable, AdditionMarker, Int32Type, StringType, StringType, false) == Some(ConcatObjectString)
  {
    OperatorCarriesAddition(ObjectType, StringType, StringType, "Concat");
    FoundAmongLeading(assignable, Int32Type, StringType, StringType, false, 0);
  }

  /** The reversed lookup swaps the inputs: (int, string) reversed finds Concat(string, object). */
  lemma ReversedIntString(assignable: Assignability)
    requires PrimitiveRules(assignable)
    ensures GetSpecialOperator(assignable, AdditionMarker, Int32Type, StringType, StringType, true) == Some(ConcatStringObject)
  {
    assert IsSealedBuiltin(StringType);
    OperatorCarriesAddition(StringType, ObjectType, StringType, "Concat");
    FoundAmongLeading(assignable, Int32Type, StringType, StringType, true, 1);
  }

  /** Every SpecialOperator attribute of m names the Addition marker. */
  predicate OnlyAdditionMarks(m: Method)
  {
    forall k :: 0 <= k < |m.attributes| && m.attributes[k].attributeType == SpecialOperatorAttribute ==>
      m.attributes[k].typeArgument == Some(AdditionMarker)
  }

  /** m carries no SpecialOperator attribute. */
  predicate LacksOperatorTag(m: Method)
  {
    forall k :: 0 <= k < |m.attributes| ==> m.attributes[k].attributeType != SpecialOperatorAttribute
  }

  /** The entries after the operators carry no SpecialOperator attribute. */
  lemma NonOperatorsUntagged()
    ensures Every(ConversionEntries + [IdentityMarker], LacksOperatorTag)
  {
    assert Every(ToDoubleEntries, LacksOperatorTag) && Every(ToFloatEntries, LacksOperatorTag);
    assert Every(ToIntEntries, LacksOperatorTag) && Every(ToCharEntries, LacksOperatorTag);
    assert Every(ToByteEntries, LacksOperatorTag) && Every([IdentityMarker], LacksOperatorTag);
    EveryConcat(ToDoubleEntries, ToFloatEntries, LacksOperatorTag);
    EveryConcat(ToDoubleEntries + ToFloatEntries, ToIntEntries, LacksOperatorTag);
    EveryConcat(ToDoubleEntries + ToFloatEntries + ToIntEntries, ToCharEntries, LacksOperatorTag);
    EveryConcat(ToDoubleEntries + ToFloatEntries + ToIntEntries + ToCharEntries, ToByteEntries, LacksOperatorTag);
    EveryConcat(ConversionEntries, [IdentityMarker], LacksOperatorTag);
  }

  /** Every entry of the table that is tagged SpecialOperator is tagged with the Addition marker. */
  lemma TableMarksAddition()
    ensures Every(Table, OnlyAdditionMarks)
  {
    assert Every(LeadingOperators, OnlyAdditionMarks) && Every(TrailingOperators, OnlyAdditionMarks);
    EveryConcat(LeadingOperators, TrailingOperators, OnlyAdditionMarks);
    NonOperatorsUntagged();
    forall i | 0 <= i < |ConversionEntries + [IdentityMarker]|
      ensures OnlyAdditionMarks((ConversionEntries + [IdentityMarker])[i])
    {
    }
    assert Table == OperatorEntries + (ConversionEntries + [IdentityMarker]);
    EveryConcat(OperatorEntries, ConversionEntries + [IdentityMarker], OnlyAdditionMarks);
  }

  /** Only typeof(AdditionAttribute) finds an operator: every other marker yields null. */
  lemma OnlyAdditionMarkerFinds(assignable: Assignability, marker: ClrType,
                                input1: ClrType, input2: ClrType, output: ClrType, reverse: bool)
    requires marker != AdditionMarker
    ensures GetSpecialOperator(assignable, marker, input1, input2, output, reverse).None?
  {
    TableMarksAddition();
    forall m | m in Table ensures !CarriesMarker(m, marker) {
      EveryMember(Table, OnlyAdditionMarks, m);
    }
  }

  /** A lookup over ops followed by untagged entries returns one of ops. */
  lemma LookupStaysInTagged(ops: seq<Method>, others: seq<Method>, assignable: Assignability, marker: ClrType,
                            input1: ClrType, input2: ClrType, output: ClrType, reverse: bool)
    requires Every(others, LacksOperatorTag)
    ensures OperatorLookup(ops + others, assignable, marker, input1, input2, output, reverse).Some? ==>
      OperatorLookup(ops + others, assignable, marker, input1, input2, output, reverse).value in ops
  {
    var r := OperatorLookup(ops + others, assignable, marker, input1, input2, output, reverse);
    if r.Some? && r.value !in ops {
      EveryMember(others, LacksOperatorTag, r.value);
      assert false;
    }
  }

  /** GetSpecialOperator returns an entry of Operators.cs, never a conversion or IdentityMarker. */
  lemma OperatorIsAnOperatorEntry(assignable: Assignability, marker: ClrType,
                                  input1: ClrType, input2: ClrType, output: ClrType, reverse: bool)
    ensures GetSpecialOperator(assignable, marker, input1, input2, output, reverse).Some? ==>
      GetSpecialOperator(assignable, marker, input1, input2, output, reverse).value in OperatorEntries
  {
    NonOperatorsUntagged();
    assert Table == OperatorEntries + (ConversionEntries + [IdentityMarker]);
    LookupStaysInTagged(OperatorEntries, ConversionEntries + [IdentityMarker], assignable, marker, input1, input2, output, reverse);
  }
}
