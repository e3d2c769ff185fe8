/**
The Modbus codec: register words to engineering values and back. Scale, offset and precision are exact
reals; single precision is a pair of conversions given from outside, a 32-bit pattern to the codec itself.
*/
module Codec {
  import opened Wrappers
  import opened RegisterTypes
  import opened Profiles

  type Bits32 = n: nat | n < 0x1_0000_0000

  /** Two registers, the first on the line first. */
  datatype WordPair = WordPair(first: Word, second: Word)

  /** The four bytes of a 32-bit value, most significant first. */
  datatype ByteQuad = ByteQuad(a: Byte, b: Byte, c: Byte, d: Byte)

  datatype DecodedValue = Num(number: real) | Label(text: string) | Flags(flags: map<string, bool>) | Null

  /** Single precision: the pattern a number is stored as, and the number of a pattern if it is finite. */
  datatype FloatCodec = FloatCodec(toBits: real -> Bits32, ofBits: Bits32 -> Option<real>)

  // ---------------------------------------------------------------- byte order

  function ToWord(value: int): Word {
    value % 0x1_0000
  }

  function WordsToBytes(words: WordPair, order: ByteOrder): ByteQuad {
    var s0, s1, s2, s3 := words.first / 0x100, words.first % 0x100, words.second / 0x100, words.second % 0x100;
    match order
    case ABCD => ByteQuad(s0, s1, s2, s3)
    case DCBA => ByteQuad(s3, s2, s1, s0)
    case BADC => ByteQuad(s1, s0, s3, s2)
    case CDAB => ByteQuad(s2, s3, s0, s1)
  }

  function Join(high: Byte, low: Byte): Word {
    high * 0x100 + low
  }

  function BytesToWords(bytes: ByteQuad, order: ByteOrder): WordPair {
    match order
    case ABCD => WordPair(Join(bytes.a, bytes.b), Join(bytes.c, bytes.d))
    case DCBA => WordPair(Join(bytes.d, bytes.c), Join(bytes.b, bytes.a))
    case BADC => WordPair(Join(bytes.b, bytes.a), Join(bytes.d, bytes.c))
    case CDAB => WordPair(Join(bytes.c, bytes.d), Join(bytes.a, bytes.b))
  }

  function Bits32OfBytes(bytes: ByteQuad): Bits32 {
    Join(bytes.a, bytes.b) * 0x1_0000 + Join(bytes.c, bytes.d)
  }

  function BytesOfBits32(n: Bits32): ByteQuad {
    WordsToBytes(WordPair(n / 0x1_0000, n % 0x1_0000), ABCD)
  }

  /** The bytes of a value taken modulo 2^32, so negative numbers become their two's complement. */
  function BytesOfInt(value: int): ByteQuad {
    BytesOfBits32(value % 0x1_0000_0000)
  }

  /** The 32-bit pattern two registers carry. */
  function PatternOf(words: seq<int>, order: ByteOrder): Bits32
    requires |words| >= 2
  {
    Bits32OfBytes(WordsToBytes(WordPair(ToWord(words[0]), ToWord(words[1])), order))
  }

  function SignedOf(n: Bits32): int {
    if n >= 0x8000_0000 then n - 0x1_0000_0000 else n
  }

  // ---------------------------------------------------------------- rounding

  function Pow10(n: nat): (p: real)
    ensures p >= 1.0
  {
    if n == 0 then 1.0 else 10.0 * Pow10(n - 1)
  }

  /** Nearest whole number, halves up. */
  function Round(x: real): int {
    (x + 0.5).Floor
  }

  function Trunc(x: real): int {
    if x < 0.0 then -((-x).Floor) else x.Floor
  }

  /** The value in units of its last kept digit. */
  function InDigits(value: real, precision: nat): real {
    value * Pow10(precision)
  }

  function RoundTo(value: real, precision: nat): real {
    Round(InDigits(value, precision)) as real / Pow10(precision)
  }

  /** A raw register number in engineering units. */
  function Scaled(raw: real, param: ParamSpec): real {
    raw * param.scale + param.offset
  }

  function Abs(x: real): real {
    if x < 0.0 then -x else x
  }

  // ---------------------------------------------------------------- flags

  function BitOf(word: nat, bit: nat): bool {
    if bit == 0 then word % 2 == 1 else BitOf(word / 2, bit - 1)
  }

  function Pow2(n: nat): (p: nat)
    ensures p >= 1
  {
    if n == 0 then 1 else 2 * Pow2(n - 1)
  }

  /** `word | (1 << bit)`. */
  function WithBit(word: nat, bit: nat): nat {
    if BitOf(word, bit) then word else word + Pow2(bit)
  }

  function FlagsOfWord(word: Word, bits: seq<BitSpec>): map<string, bool> {
    if bits == [] then map[]
    else
      var spec := bits[|bits| - 1];
      var on := BitOf(word, spec.bit);
      FlagsOfWord(word, bits[..|bits| - 1])[spec.key := if spec.invert then !on else on]
  }

  method DecodeBits(value: real, bits: seq<BitSpec>) returns (flags: map<string, bool>)
    ensures flags == FlagsOfWord(ToWord(Trunc(value)), bits)
  {
    var word := ToWord(Trunc(value));
    flags := map[];
    for i := 0 to |bits|
      invariant flags == FlagsOfWord(word, bits[..i])
    {
      var spec := bits[i];
      assert bits[..i + 1][..i] == bits[..i];
      var on := BitOf(word, spec.bit);
      flags := flags[spec.key := if spec.invert then !on else on];
    }
    assert bits[..|bits|] == bits;
  }

  function BitsOfFlags(flags: map<string, bool>, bits: seq<BitSpec>): nat {
    if bits == [] then 0
    else
      var spec := bits[|bits| - 1];
      var word := BitsOfFlags(flags, bits[..|bits| - 1]);
      if spec.key in flags && (if spec.invert then !flags[spec.key] else flags[spec.key])
      then WithBit(word, spec.bit) else word
  }

  method WordOfFlags(flags: map<string, bool>, bits: seq<BitSpec>) returns (r: Word)
    ensures r == ToWord(BitsOfFlags(flags, bits))
  {
    var word := 0;
    for i := 0 to |bits|
      invariant word == BitsOfFlags(flags, bits[..i])
    {
      var spec := bits[i];
      assert bits[..i + 1][..i] == bits[..i];
      if spec.key !in flags {
        continue;
      }
      if (if spec.invert then !flags[spec.key] else flags[spec.key]) {
        word := WithBit(word, spec.bit);
      }
    }
    assert bits[..|bits|] == bits;
    r := ToWord(word);
  }

  // ---------------------------------------------------------------- enumerations

  /** The number of the first code with this label; None when the label is unknown or its code is no number. */
  function CodeOfLabel(text: string, table: seq<EnumEntry>): Option<real> {
    if table == [] then None
    else if table[0].text != text then CodeOfLabel(text, table[1..])
    else table[0].code
  }

  /** The label under the text the number prints as. */
  function LabelOfCode(value: real, table: seq<EnumEntry>): DecodedValue {
    if table == [] then Null
    else if table[0].canonical && table[0].code == Some(value) then Label(table[0].text)
    else LabelOfCode(value, table[1..])
  }

  // ---------------------------------------------------------------- decode

  function AssembleRaw(words: seq<int>, dataType: DataType, order: ByteOrder, floats: FloatCodec): Option<real> {
    if words == [] then None
    else
      var low := ToWord(words[0]);
      match dataType
      case Int16 => Some((if low >= 0x8000 then low - 0x1_0000 else low) as real)
      case Uint16 => Some(low as real)
      case Bits16 => Some(low as real)
      case _ =>
        if |words| < 2 then None
        else
          var n := PatternOf(words, order);
          match dataType
          case Int32 => Some(SignedOf(n) as real)
          case Uint32 => Some(n as real)
          case _ => floats.ofBits(n)
  }

  function DecodeParam(words: seq<int>, param: ParamSpec, floats: FloatCodec): DecodedValue {
    match AssembleRaw(words, param.dataType, param.byteOrder, floats)
    case None => Null
    case Some(raw) =>
      var value := RoundTo(Scaled(raw, param), param.precision);
      if param.dataType == Bits16 && param.bits.Some? then Flags(FlagsOfWord(ToWord(Trunc(value)), param.bits.value))
      else if param.states.Some? then LabelOfCode(value, param.states.value)
      else Num(value)
  }

  // ---------------------------------------------------------------- encode

  function ToScaledValue(value: DecodedValue, param: ParamSpec): Option<real> {
    match value
    case Null => None
    case Num(number) => Some(number)
    case Label(text) => if param.states.Some? then CodeOfLabel(text, param.states.value) else None
    case Flags(flags) => if param.bits.Some? then Some(ToWord(BitsOfFlags(flags, param.bits.value)) as real) else None
  }

  /** The whole numbers an integer type can carry; `hi` is exclusive. */
  function RangeOf(dataType: DataType): (int, int) {
    match dataType
    case Int16 => (-0x8000, 0x8000)
    case Uint16 | Bits16 => (0, 0x1_0000)
    case Int32 => (-0x8000_0000, 0x8000_0000)
    case _ => (0, 0x1_0000_0000)
  }

  predicate InRange(whole: int, dataType: DataType) {
    RangeOf(dataType).0 <= whole < RangeOf(dataType).1
  }

  function WordsOfBytes(bytes: ByteQuad, order: ByteOrder): seq<int> {
    var pair := BytesToWords(bytes, order);
    [pair.first, pair.second]
  }

  function WordsOfWhole(whole: int, dataType: DataType, order: ByteOrder): seq<int> {
    if !InRange(whole, dataType) then []
    else match dataType
      case Int16 => [ToWord(whole)]
      case Uint16 | Bits16 => [whole]
      case _ => WordsOfBytes(BytesOfInt(whole), order)
  }

  function RawOf(scaled: real, param: ParamSpec): real
    requires param.scale != 0.0
  {
    (scaled - param.offset) / param.scale
  }

  function EncodeParam(value: DecodedValue, param: ParamSpec, floats: FloatCodec): (words: seq<int>)
    ensures words == [] || |words| == WordsOf(param.dataType)
  {
    var scaled := ToScaledValue(value, param);
    if scaled.None? || param.scale == 0.0 then []
    else
      var raw := RawOf(scaled.value, param);
      if param.dataType == Float32 then WordsOfBytes(BytesOfInt(floats.toBits(raw)), param.byteOrder)
      else WordsOfWhole(Round(raw), param.dataType, param.byteOrder)
  }
}
