/**
 * The integer and string entries of the fallback table SpecialOperations: the additions of
 * Operators.cs over byte, char and int, the two Concat entries, Equal(int, int), and the
 * integer conversions of Conversions.cs and of the older Contracts/SpecialOperations.cs.
 * C# evaluates these unchecked: int arithmetic wraps around modulo 2^32, and a cast to a
 * narrower integer type keeps the low bits.
 */
module SpecialArithmetic {
  import opened Wrappers

  const TwoTo8 := 0x100
  const TwoTo16 := 0x1_0000
  const TwoTo32 := 0x1_0000_0000

  /** System.Int32. */
  newtype Int32 = x: int | -0x8000_0000 <= x < 0x8000_0000

  /** System.Byte. */
  newtype UInt8 = x: int | 0 <= x < 0x100

  /** System.Char, a UTF-16 code unit. */
  newtype UInt16 = x: int | 0 <= x < 0x1_0000

  /** The int whose two's-complement bits are the low 32 bits of x. */
  function Wrap32(x: int): (r: Int32)
    ensures (r as int - x) % TwoTo32 == 0
    ensures -0x8000_0000 <= x < 0x8000_0000 ==> r as int == x
  {
    ((x + 0x8000_0000) % TwoTo32 - 0x8000_0000) as Int32
  }

  /** Two ints congruent modulo 2^32 wrap to the same int. */
  lemma Wrap32Congruent(x: int, y: int)
    requires (x - y) % TwoTo32 == 0
    ensures Wrap32(x) == Wrap32(y)
  {
    var k := (x - y) / TwoTo32;
    assert x == y + k * TwoTo32;
    assert (x + 0x8000_0000) % TwoTo32 == (y + 0x8000_0000 + k * TwoTo32) % TwoTo32;
    ModuloShift(y + 0x8000_0000, k);
  }

  lemma ModuloShift(a: int, k: int)
    ensures (a + k * TwoTo32) % TwoTo32 == a % TwoTo32
  {
  }

  // ---- Operators.cs ----

  /** Add(byte, byte): both operands are widened to int; the sum is at most 510, so it is exact. */
  function AddByteByte(a: UInt8, b: UInt8): (r: Int32)
    ensures r as int == a as int + b as int
  {
    (a as int + b as int) as Int32
  }

  /** Add(char, char): the sum is at most 131070, so it is exact. */
  function AddCharChar(a: UInt16, b: UInt16): (r: Int32)
    ensures r as int == a as int + b as int
  {
    (a as int + b as int) as Int32
  }

  /** Add(int, int): a + b with unchecked 32-bit wrap-around. */
  function AddIntInt(a: Int32, b: Int32): (r: Int32)
    ensures (r as int - (a as int + b as int)) % TwoTo32 == 0
    ensures -0x8000_0000 <= a as int + b as int < 0x8000_0000 ==> r as int == a as int + b as int
  {
    Wrap32(a as int + b as int)
  }

  /** Add(byte, char). */
  function AddByteChar(a: UInt8, b: UInt16): (r: Int32)
    ensures r as int == a as int + b as int
  {
    (a as int + b as int) as Int32
  }

  /** Add(char, byte). */
  function AddCharByte(a: UInt16, b: UInt8): (r: Int32)
    ensures r as int == a as int + b as int
  {
    (a as int + b as int) as Int32
  }

  /** Add(byte, int): the byte is widened, then the int addition wraps. */
  function AddByteInt(a: UInt8, b: Int32): (r: Int32)
    ensures r == AddIntInt(ToIntFromByte(a), b)
  {
    Wrap32(a as int + b as int)
  }

  /** Add(int, byte). */
  function AddIntByte(a: Int32, b: UInt8): (r: Int32)
    ensures r == AddIntInt(a, ToIntFromByte(b))
  {
    Wrap32(a as int + b as int)
  }

  /** Add(char, int). */
  function AddCharInt(a: UInt16, b: Int32): (r: Int32)
    ensures r == AddIntInt(ToIntFromChar(a), b)
  {
    Wrap32(a as int + b as int)
  }

  /** Add(int, char). */
  function AddIntChar(a: Int32, b: UInt16): (r: Int32)
    ensures r == AddIntInt(a, ToIntFromChar(b))
  {
    Wrap32(a as int + b as int)
  }

  /** Integer addition with wrap-around is commutative. */
  lemma AddIntIntCommutes(a: Int32, b: Int32)
    ensures AddIntInt(a, b) == AddIntInt(b, a)
  {
  }

  /** The mixed entries come in mirrored pairs that agree on swapped operands. */
  lemma MirroredPairsAgree(b: UInt8, c: UInt16, i: Int32)
    ensures AddByteChar(b, c) == AddCharByte(c, b)
    ensures AddByteInt(b, i) == AddIntByte(i, b)
    ensures AddCharInt(c, i) == AddIntChar(i, c)
  {
  }

  /** The sums of two small operands never leave the int range, so wrapping does not change them. */
  lemma SmallSumsAreExact(b: UInt8, c: UInt16)
    ensures AddByteInt(b, ToIntFromChar(c)) as int == b as int + c as int
    ensures AddByteByte(b, b) as int <= 510 && AddCharChar(c, c) as int <= 131070
  {
  }

  /** The int entries wrap around at the top of the range: int.MaxValue + 1 is int.MinValue. */
  lemma AddIntIntOverflows()
    ensures AddIntInt(0x7FFF_FFFF, 1) == -0x8000_0000
    ensures AddByteInt(255, 0x7FFF_FFFF) == -0x7FFF_FF02
  {
  }

  /**
   * The string form of a Concat operand: string.Concat turns a null argument into the empty
   * string and otherwise uses the argument's ToString().
   */
  function StringForm(s: Option<string>): string
  {
    if s.None? then "" else s.value
  }

  /** Concat(object str1, string str2), with str1 given by the result of its ToString(). */
  function ConcatObjectString(str1: Option<string>, str2: Option<string>): (r: string)
    ensures |r| == |StringForm(str1)| + |StringForm(str2)|
    ensures r[..|StringForm(str1)|] == StringForm(str1) && r[|StringForm(str1)|..] == StringForm(str2)
  {
    StringForm(str1) + StringForm(str2)
  }

  /** Concat(string str1, object str2), with str2 given by the result of its ToString(). */
  function ConcatStringObject(str1: Option<string>, str2: Option<string>): (r: string)
    ensures |r| == |StringForm(str1)| + |StringForm(str2)|
    ensures r[..|StringForm(str1)|] == StringForm(str1) && r[|StringForm(str1)|..] == StringForm(str2)
  {
    StringForm(str1) + StringForm(str2)
  }

  /** Both Concat entries put the first operand's text before the second's, so they agree. */
  lemma ConcatEntriesAgree(str1: Option<string>, str2: Option<string>)
    ensures ConcatObjectString(str1, str2) == ConcatStringObject(str1, str2)
    ensures ConcatObjectString(None, str2) == StringForm(str2)
  {
  }

  /** Equal(int, int), a private helper of Operators.cs. */
  predicate EqualInt(a: Int32, b: Int32)
  {
    a == b
  }

  // ---- Conversions.cs and Contracts/SpecialOperations.cs ----

  /** ToInt(byte): widening keeps the value. ByteToInt of the older table does the same. */
  function ToIntFromByte(b: UInt8): (r: Int32)
    ensures r as int == b as int
  {
    b as int as Int32
  }

  /** ToInt(char): widening keeps the code unit's value. */
  function ToIntFromChar(c: UInt16): (r: Int32)
    ensures r as int == c as int
  {
    c as int as Int32
  }

  /** ToChar(int): the unchecked cast keeps the low 16 bits. */
  function ToCharFromInt(i: Int32): (r: UInt16)
    ensures (r as int - i as int) % TwoTo16 == 0
  {
    (i as int % TwoTo16) as UInt16
  }

  /** ToChar(byte): widening keeps the value. */
  function ToCharFromByte(b: UInt8): (r: UInt16)
    ensures r as int == b as int
  {
    b as int as UInt16
  }

  /** ToByte(int): the unchecked cast keeps the low 8 bits. */
  function ToByteFromInt(i: Int32): (r: UInt8)
    ensures (r as int - i as int) % TwoTo8 == 0
  {
    (i as int % TwoTo8) as UInt8
  }

  /** ToByte(char): the unchecked cast keeps the low 8 bits. */
  function ToByteFromChar(c: UInt16): (r: UInt8)
    ensures (r as int - c as int) % TwoTo8 == 0
  {
    (c as int % TwoTo8) as UInt8
  }

  /** An int in a narrower type's range survives the narrowing cast unchanged. */
  lemma NarrowingInRangeIsExact(i: Int32)
    ensures 0 <= i as int < TwoTo8 ==> ToByteFromInt(i) as int == i as int
    ensures 0 <= i as int < TwoTo16 ==> ToCharFromInt(i) as int == i as int
  {
  }

  /** Negative ints narrow to their two's-complement low bits. */
  lemma NarrowingNegative()
    ensures ToByteFromInt(-1) == 255 && ToCharFromInt(-1) == 0xFFFF && ToByteFromInt(-256) == 0
    ensures ToByteFromChar(0x1234) == 0x34
  {
  }

  /** Widening and then narrowing back gives the original value. */
  lemma ConversionRoundTrips(b: UInt8, c: UInt16)
    ensures ToByteFromInt(ToIntFromByte(b)) == b
    ensures ToCharFromInt(ToIntFromChar(c)) == c
    ensures ToByteFromChar(ToCharFromByte(b)) == b
  {
  }

  /** Narrowing through char or directly to byte keeps the same low 8 bits of an int. */
  lemma NarrowingComposes(i: Int32)
    ensures ToByteFromChar(ToCharFromInt(i)) == ToByteFromInt(i)
  {
    var c := ToCharFromInt(i) as int;
    var k := (c - i as int) / TwoTo16;
    assert c == i as int + k * TwoTo16;
    assert k * TwoTo16 == (k * 256) * TwoTo8;
    ShiftByMultiple(i as int, k * 256);
  }

  lemma ShiftByMultiple(a: int, k: int)
    ensures (a + k * TwoTo8) % TwoTo8 == a % TwoTo8
  {
  }
}
