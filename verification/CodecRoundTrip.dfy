/** Values the registers can hold exactly come back unchanged: numbers on the grid, labels, flag words. */
module CodecRoundTrip {
  import opened Wrappers
  import opened RegisterTypes
  import opened Profiles
  import opened Codec
  import opened CodecInversion

  // ---------------------------------------------------------------- flag words

  lemma {:induction false} WithBitSets(word: nat, bit: nat, other: nat)
    ensures BitOf(WithBit(word, bit), other) <==> other == bit || BitOf(word, other)
  {
    if !BitOf(word, bit) {
      if bit == 0 {
        assert (word + 1) / 2 == word / 2;
      } else {
        var p := Pow2(bit - 1);
        assert (word + 2 * p) / 2 == word / 2 + p && (word + 2 * p) % 2 == word % 2;
        if other > 0 {
          WithBitSets(word / 2, bit - 1, other - 1);
        }
      }
    }
  }

  lemma {:induction false} WithBitFits(word: nat, bit: nat, width: nat)
    requires word < Pow2(width) && bit < width
    ensures WithBit(word, bit) < Pow2(width)
  {
    hide BitOf, Pow2;
    Doubles(width - 1);
    if !BitOf(word, bit) {
      LowestBit(word);
      if bit > 0 {
        Doubles(bit - 1);
        HigherBit(word, bit);
        WithBitFits(word / 2, bit - 1, width - 1);
      }
    }
  }

  lemma Doubles(n: nat)
    ensures Pow2(n + 1) == 2 * Pow2(n) && Pow2(0) == 1
  {
  }

  lemma LowestBit(word: nat)
    ensures BitOf(word, 0) <==> word % 2 == 1
  {
  }

  lemma HigherBit(word: nat, bit: nat)
    requires bit > 0
    ensures BitOf(word, bit) <==> BitOf(word / 2, bit - 1)
  {
  }

  lemma {:induction false} NoBits(bit: nat)
    ensures !BitOf(0, bit)
  {
    if bit > 0 {
      NoBits(bit - 1);
    }
  }

  predicate Raised(flags: map<string, bool>, spec: BitSpec) {
    spec.key in flags && (if spec.invert then !flags[spec.key] else flags[spec.key])
  }

  lemma {:induction false} WordHoldsFlags(flags: map<string, bool>, bits: seq<BitSpec>, bit: nat)
    ensures BitOf(BitsOfFlags(flags, bits), bit) <==>
            exists spec :: spec in bits && spec.bit == bit && Raised(flags, spec)
  {
    if bits == [] {
      NoBits(bit);
    } else {
      var front, last := bits[..|bits| - 1], bits[|bits| - 1];
      WordHoldsFlags(flags, front, bit);
      WithBitSets(BitsOfFlags(flags, front), last.bit, bit);
      assert forall spec :: spec in bits <==> spec in front || spec == last;
    }
  }

  lemma SixteenBitWidth()
    ensures Pow2(16) == 0x1_0000
  {
    assert Pow2(4) == 16;
    assert Pow2(8) == 16 * Pow2(4);
    assert Pow2(12) == 16 * Pow2(8);
    assert Pow2(16) == 16 * Pow2(12);
  }

  lemma {:induction false} FlagWordFits(flags: map<string, bool>, bits: seq<BitSpec>)
    requires forall spec :: spec in bits ==> spec.bit < 16
    ensures BitsOfFlags(flags, bits) < 0x1_0000
    ensures ToWord(BitsOfFlags(flags, bits)) == BitsOfFlags(flags, bits)
  {
    SixteenBitWidth();
    if bits != [] {
      var front, last := bits[..|bits| - 1], bits[|bits| - 1];
      FlagWordFits(flags, front);
      assert last in bits;
      WithBitFits(BitsOfFlags(flags, front), last.bit, 16);
    }
  }

  ghost predicate DistinctBits(bits: seq<BitSpec>) {
    && (forall spec :: spec in bits ==> spec.bit < 16)
    && (forall i, j :: 0 <= i < j < |bits| ==> bits[i].bit != bits[j].bit && bits[i].key != bits[j].key)
  }

  lemma {:induction false} FlagsAtKeys(word: Word, bits: seq<BitSpec>)
    requires forall i, j :: 0 <= i < j < |bits| ==> bits[i].key != bits[j].key
    ensures forall key :: key in FlagsOfWord(word, bits) <==> exists spec :: spec in bits && spec.key == key
    ensures forall spec :: spec in bits ==>
              FlagsOfWord(word, bits)[spec.key] ==
                (if spec.invert then !BitOf(word, spec.bit) else BitOf(word, spec.bit))
  {
    if bits != [] {
      var front, last := bits[..|bits| - 1], bits[|bits| - 1];
      FlagsAtKeys(word, front);
      assert bits == front + [last];
      forall spec | spec in front ensures spec.key != last.key {
        var i :| 0 <= i < |front| && front[i] == spec;
        assert bits[i].key != bits[|bits| - 1].key;
      }
    }
  }

  /** Flags over distinct bits and keys survive their word, whatever the inversion pattern. */
  lemma FlagsSurvive(flags: map<string, bool>, bits: seq<BitSpec>)
    requires DistinctBits(bits)
    requires forall key :: key in flags <==> exists spec :: spec in bits && spec.key == key
    ensures FlagsOfWord(ToWord(BitsOfFlags(flags, bits)), bits) == flags
  {
    var word := BitsOfFlags(flags, bits);
    FlagWordFits(flags, bits);
    var back := FlagsOfWord(ToWord(word), bits);
    FlagsAtKeys(ToWord(word), bits);
    assert back.Keys == flags.Keys;
    forall key | key in flags ensures back[key] == flags[key] {
      var spec :| spec in bits && spec.key == key;
      WordHoldsFlags(flags, bits, spec.bit);
      forall other | other in bits && other.bit == spec.bit ensures other == spec {
        SameBitSameSpec(bits, other, spec);
      }
    }
  }

  lemma SameBitSameSpec(bits: seq<BitSpec>, a: BitSpec, b: BitSpec)
    requires DistinctBits(bits) && a in bits && b in bits && a.bit == b.bit
    ensures a == b
  {
    var i :| 0 <= i < |bits| && bits[i] == a;
    var j :| 0 <= j < |bits| && bits[j] == b;
    assert i == j || i < j || j < i;
  }

  // ---------------------------------------------------------------- labels

  /** Codes are numbers that print as themselves, and no two are the same. */
  ghost predicate CanonicalTable(table: seq<EnumEntry>) {
    && (forall i :: 0 <= i < |table| ==> table[i].canonical && table[i].code.Some?)
    && (forall i, j :: 0 <= i < j < |table| ==> table[i].code != table[j].code)
  }

  ghost predicate Known(text: string, table: seq<EnumEntry>) {
    exists entry :: entry in table && entry.text == text
  }

  lemma {:induction false} CodeIsListed(text: string, table: seq<EnumEntry>)
    requires CanonicalTable(table) && Known(text, table)
    ensures CodeOfLabel(text, table).Some?
    ensures exists entry :: entry in table && entry.text == text && entry.code == CodeOfLabel(text, table)
  {
    if table[0].text != text {
      var entry :| entry in table && entry.text == text;
      assert entry in table[1..];
      CodeIsListed(text, table[1..]);
    } else {
      assert table[0] in table;
    }
  }

  lemma {:induction false} LabelIsFound(entry: EnumEntry, table: seq<EnumEntry>)
    requires CanonicalTable(table) && entry in table
    ensures LabelOfCode(entry.code.value, table) == Label(entry.text)
  {
    if table[0] != entry {
      var i :| 0 <= i < |table| && table[i] == entry;
      assert table[0].code != table[i].code;
      assert entry in table[1..];
      LabelIsFound(entry, table[1..]);
    }
  }

  // ---------------------------------------------------------------- values on the grid

  /** The value is some register number in engineering units, with no digits beyond the precision. */
  ghost predicate OnGrid(value: real, param: ParamSpec) {
    && param.scale != 0.0
    && param.dataType != Float32
    && (exists whole :: InRange(whole, param.dataType) && Scaled(whole as real, param) == value)
    && InDigits(value, param.precision) == InDigits(value, param.precision).Floor as real
  }

  /** A number single precision and the precision of the param keep exactly. */
  ghost predicate FloatExact(value: real, param: ParamSpec, floats: FloatCodec) {
    && param.scale != 0.0
    && param.dataType == Float32
    && floats.ofBits(floats.toBits(RawOf(value, param))) == Some(RawOf(value, param))
    && InDigits(value, param.precision) == InDigits(value, param.precision).Floor as real
  }

  /** A value the param can carry without loss. */
  ghost predicate Encodable(value: DecodedValue, param: ParamSpec, floats: FloatCodec) {
    match value
    case Null => false
    case Num(number) =>
      param.bits.None? && param.states.None? && (OnGrid(number, param) || FloatExact(number, param, floats))
    case Label(text) =>
      && param.bits.None? && param.states.Some? && CanonicalTable(param.states.value) && Known(text, param.states.value)
      && CodeOfLabel(text, param.states.value).Some?
      && OnGrid(CodeOfLabel(text, param.states.value).value, param)
    case Flags(flags) =>
      && param.dataType == Bits16 && param.bits.Some? && DistinctBits(param.bits.value)
      && (forall key :: key in flags <==> exists spec :: spec in param.bits.value && spec.key == key)
      && OnGrid(ToWord(BitsOfFlags(flags, param.bits.value)) as real, param)
  }

  lemma RawOfScaled(whole: int, param: ParamSpec)
    requires param.scale != 0.0
    ensures RawOf(Scaled(whole as real, param), param) == whole as real
  {
    QuotientOfSum(whole as real, param.scale, 0.0, whole as real * param.scale);
  }

  lemma ScaledOfRaw(value: real, param: ParamSpec)
    requires param.scale != 0.0
    ensures Scaled(RawOf(value, param), param) == value
  {
  }

  /** The words of a value on the grid read as exactly that value. */
  lemma GridWords(value: real, param: ParamSpec, floats: FloatCodec) returns (whole: int)
    requires OnGrid(value, param)
    ensures Round(RawOf(value, param)) == whole && InRange(whole, param.dataType)
    ensures AssembleRaw(WordsOfWhole(whole, param.dataType, param.byteOrder), param.dataType, param.byteOrder, floats)
            == Some(whole as real)
    ensures RoundTo(Scaled(whole as real, param), param.precision) == value
  {
    hide AssembleRaw, WordsOfWhole, RoundTo, Scaled, RawOf, Pow10, InDigits, Round;
    whole :| InRange(whole, param.dataType) && Scaled(whole as real, param) == value;
    RawOfScaled(whole, param);
    RoundOfWhole(whole);
    WholeSurvives(whole, param.dataType, param.byteOrder, floats);
    RoundToOfGrid(value, param.precision, InDigits(value, param.precision).Floor);
  }

  lemma FloatWords(value: real, param: ParamSpec, floats: FloatCodec)
    requires FloatExact(value, param, floats)
    ensures var words := WordsOfBytes(BytesOfInt(floats.toBits(RawOf(value, param))), param.byteOrder);
            && |words| == 2
            && AssembleRaw(words, param.dataType, param.byteOrder, floats) == Some(RawOf(value, param))
    ensures RoundTo(Scaled(RawOf(value, param), param), param.precision) == value
  {
    hide AssembleRaw, BytesOfInt, PatternOf, WordsOfBytes, RoundTo, Scaled, RawOf, InDigits;
    var bits := floats.toBits(RawOf(value, param));
    WordsCarryBits(bits, param.byteOrder);
    assert bits % 0x1_0000_0000 == bits;
    TwoWords(WordsOfBytes(BytesOfInt(bits), param.byteOrder), param.dataType, param.byteOrder, floats, bits);
    ScaledOfRaw(value, param);
    RoundToOfGrid(value, param.precision, InDigits(value, param.precision).Floor);
  }

  lemma TruncOfWord(w: Word)
    ensures ToWord(Trunc(w as real)) == w
  {
  }

  /** The round trip: what can be carried without loss is written, and comes back as it was. */
  lemma ValueSurvives(value: DecodedValue, param: ParamSpec, floats: FloatCodec)
    requires Encodable(value, param, floats)
    ensures EncodeParam(value, param, floats) != []
    ensures DecodeParam(EncodeParam(value, param, floats), param, floats) == value
  {
    hide AssembleRaw, WordsOfWhole, RoundTo, Scaled, RawOf, Round, BytesOfInt, WordsOfBytes, ToWord, Trunc;
    match value {
      case Num(number) =>
        if OnGrid(number, param) {
          GridIsWritten(number, param, floats);
        } else {
          FloatWords(number, param, floats);
        }
      case Label(text) =>
        var table := param.states.value;
        CodeIsListed(text, table);
        var entry :| entry in table && entry.text == text && entry.code == CodeOfLabel(text, table);
        LabelIsFound(entry, table);
        GridIsWritten(entry.code.value, param, floats);
      case Flags(flags) =>
        var word := ToWord(BitsOfFlags(flags, param.bits.value));
        FlagsSurvive(flags, param.bits.value);
        TruncOfWord(word);
        GridIsWritten(word as real, param, floats);
    }
  }

  lemma GridIsWritten(scaled: real, param: ParamSpec, floats: FloatCodec)
    requires OnGrid(scaled, param)
    ensures var words := WordsOfWhole(Round(RawOf(scaled, param)), param.dataType, param.byteOrder);
            && words != []
            && var raw := AssembleRaw(words, param.dataType, param.byteOrder, floats);
               raw.Some? && RoundTo(Scaled(raw.value, param), param.precision) == scaled
  {
    hide AssembleRaw, RoundTo, Scaled, RawOf, Round, BytesOfInt, WordsOfBytes, ToWord;
    var whole := GridWords(scaled, param, floats);
    if WordsOf(param.dataType) == 2 {
      WordsCarryBits(whole, param.byteOrder);
    }
  }
}
