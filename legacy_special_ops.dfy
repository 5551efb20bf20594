/**
 * The older fallback table TinyReflectiveToolkit.Contracts.SpecialOperations: IdentityMarker
 * and three SpecialConversion entries to int, with the same GetSpecialConversion lookup.
 */
module LegacySpecialOps {
  import opened Wrappers
  import opened Linq
  import opened Reflection
  import opened WithAttributes
  import opened SpecialOps

  /** typeof(TinyReflectiveToolkit.Contracts.SpecialOperations), a class apart from SpecialOps.SpecialOperations. */
  const LegacySpecialOperationsType := Named(11)

  /** A [SpecialConversion] entry of this class, which carries no Obsolete attribute. */
  function LegacyConversion(name: string, source: ClrType, target: ClrType): Method
  {
    StaticMethodOf(LegacySpecialOperationsType, name, [source], target, [SpecialConversionTag])
  }

  /** IdentityMarker() of this class: no parameters, no attributes. */
  const LegacyIdentityMarker: Method := StaticMethodOf(LegacySpecialOperationsType, "IdentityMarker", [], VoidType, [])

  const FloatToInt: Method := LegacyConversion("FloatToInt", SingleType, Int32Type)
  const DoubleToInt: Method := LegacyConversion("DoubleToInt", DoubleType, Int32Type)
  const ByteToInt: Method := LegacyConversion("ByteToInt", ByteType, Int32Type)

  /** The three conversions, in declaration order. */
  const LegacyConversions: seq<Method> := [FloatToInt, DoubleToInt, ByteToInt]

  /** typeof(SpecialOperations).GetMethods(): IdentityMarker, then the conversions. */
  const LegacyTable: seq<Method> := [LegacyIdentityMarker] + LegacyConversions

  /** IdentityMarkerMethodInfo: the single entry named IdentityMarker, which exists. */
  function LegacyIdentityMarkerMethodInfo(): (r: Result<Method>)
    ensures r == Ok(LegacyIdentityMarker)
  {
    OnlyFirstNamed(LegacyIdentityMarker, LegacyConversions, "IdentityMarker");
    Single(Filter(LegacyTable, NamedAs("IdentityMarker")))
  }

  lemma OnlyFirstNamed(first: Method, after: seq<Method>, name: string)
    requires first.name == name && NamesAvoid(after, name)
    ensures Filter([first] + after, NamedAs(name)) == [first]
  {
    var p := NamedAs(name);
    FilterConcat([first], after, p);
    forall m | m in after ensures !p(m) {
      var i :| 0 <= i < |after| && after[i] == m;
    }
    FilterNone(after, p);
  }

  /** GetSpecialConversion of the older class. */
  function LegacyGetSpecialConversion(source: ClrType, target: ClrType): Result<Option<Method>>
  {
    ConversionLookup(LegacyTable, source, target)
  }

  /** Filtering the older table by the SpecialConversion tag leaves the three conversions. */
  lemma LegacyTaggedAreConversions()
    ensures MethodsWithAttribute(Some(LegacyTable), SpecialConversionAttribute).value == LegacyConversions
  {
    assert forall m :: m in LegacyConversions ==> m.attributes[0] == SpecialConversionTag;
    TaggedPart([LegacyIdentityMarker], LegacyConversions, []);
    assert LegacyTable + [] == LegacyTable;
  }

  lemma LegacyKeysDistinct()
    ensures KeysDistinct(LegacyConversions, ConversionKey)
  {
  }

  /** The older lookup never throws: its conversions have distinct sources. */
  lemma LegacyNeverThrows(source: ClrType, target: ClrType)
    ensures LegacyGetSpecialConversion(source, target).Ok?
  {
    LegacyTaggedAreConversions();
    LegacyKeysDistinct();
    AtMostOneCandidate(LegacyConversions, source, target);
  }

  /** byte, float and double each find their conversion to int. */
  lemma LegacyConversionsFound()
    ensures LegacyGetSpecialConversion(ByteType, Int32Type) == Ok(Some(ByteToInt))
    ensures LegacyGetSpecialConversion(SingleType, Int32Type) == Ok(Some(FloatToInt))
    ensures LegacyGetSpecialConversion(DoubleType, Int32Type) == Ok(Some(DoubleToInt))
  {
    LegacyTaggedAreConversions();
    LegacyKeysDistinct();
    assert ByteToInt.attributes[0] == SpecialConversionTag;
    assert ByteToInt == LegacyTable[3];
    LookupFinds(LegacyTable, LegacyConversions, ByteToInt, ByteType, Int32Type);
    assert FloatToInt.attributes[0] == SpecialConversionTag;
    assert FloatToInt == LegacyTable[1];
    LookupFinds(LegacyTable, LegacyConversions, FloatToInt, SingleType, Int32Type);
    assert DoubleToInt.attributes[0] == SpecialConversionTag;
    assert DoubleToInt == LegacyTable[2];
    LookupFinds(LegacyTable, LegacyConversions, DoubleToInt, DoubleType, Int32Type);
  }

  /** Every conversion the older class offers targets int; any other target yields null. */
  lemma LegacyOnlyToInt(source: ClrType, target: ClrType)
    requires target != Int32Type
    ensures LegacyGetSpecialConversion(source, target) == Ok(None)
  {
    assert !IsConversionFor(LegacyTable[0], source, target);
    assert forall i :: 1 <= i < |LegacyTable| ==> LegacyTable[i].returnType == Int32Type;
    NothingFound(LegacyTable, source, target);
  }

  /** A lookup over entries none of which has the requested signature yields null. */
  lemma NothingFound(table: seq<Method>, source: ClrType, target: ClrType)
    requires forall i :: 0 <= i < |table| ==> !IsConversionFor(table[i], source, target)
    ensures ConversionLookup(table, source, target) == Ok(None)
  {
    forall m | m in table ensures !IsConversionFor(m, source, target) {
      var i :| 0 <= i < |table| && table[i] == m;
    }
  }

  /** The older lookup never returns its IdentityMarker. */
  lemma LegacyNeverIdentityMarker(source: ClrType, target: ClrType)
    ensures LegacyGetSpecialConversion(source, target) != Ok(Some(LegacyIdentityMarker))
  {
  }
}
