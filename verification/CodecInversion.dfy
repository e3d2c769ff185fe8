/** Encoding and decoding undo each other: exactly on words, within half a step on values. */
module CodecInversion {
  import opened Wrappers
  import opened RegisterTypes
  import opened Profiles
  import opened Codec

  lemma SplitThenJoin(w: Word)
    ensures Join(w / 0x100, w % 0x100) == w
  {
  }

  lemma JoinThenSplit(high: Byte, low: Byte)
    ensures Join(high, low) / 0x100 == high && Join(high, low) % 0x100 == low
  {
  }

  /** For every byte order, words to bytes to words and bytes to words to bytes are the identity. */
  lemma ByteOrderInverts(words: WordPair, bytes: ByteQuad, order: ByteOrder)
    ensures BytesToWords(WordsToBytes(words, order), order) == words
    ensures WordsToBytes(BytesToWords(bytes, order), order) == bytes
  {
    SplitThenJoin(words.first);
    SplitThenJoin(words.second);
    match order
    case ABCD => JoinThenSplit(bytes.a, bytes.b); JoinThenSplit(bytes.c, bytes.d);
    case DCBA => JoinThenSplit(bytes.d, bytes.c); JoinThenSplit(bytes.b, bytes.a);
    case BADC => JoinThenSplit(bytes.b, bytes.a); JoinThenSplit(bytes.d, bytes.c);
    case CDAB => JoinThenSplit(bytes.c, bytes.d); JoinThenSplit(bytes.a, bytes.b);
  }

  lemma HalvesJoin(n: Bits32)
    ensures n / 0x1_0000 * 0x1_0000 + n % 0x1_0000 == n
  {
  }

  lemma HalvesSplit(high: int, low: int)
    requires 0 <= high < 0x1_0000 && 0 <= low < 0x1_0000
    ensures 0 <= high * 0x1_0000 + low < 0x1_0000_0000
    ensures (high * 0x1_0000 + low) / 0x1_0000 == high && (high * 0x1_0000 + low) % 0x1_0000 == low
  {
  }

  lemma BytesThenBits(n: Bits32)
    ensures Bits32OfBytes(BytesOfBits32(n)) == n
  {
    HalvesJoin(n);
    SplitThenJoin(n / 0x1_0000);
    SplitThenJoin(n % 0x1_0000);
  }

  lemma BitsThenBytes(bytes: ByteQuad)
    ensures BytesOfBits32(Bits32OfBytes(bytes)) == bytes
  {
    var high: int, low: int := Join(bytes.a, bytes.b), Join(bytes.c, bytes.d);
    HalvesSplit(high, low);
    JoinThenSplit(bytes.a, bytes.b);
    JoinThenSplit(bytes.c, bytes.d);
    assert BytesOfBits32(high * 0x1_0000 + low) == WordsToBytes(WordPair(high, low), ABCD);
  }

  lemma WordIsItself(w: Word)
    ensures ToWord(w) == w
  {
  }

  lemma PatternOfPair(pair: WordPair, order: ByteOrder)
    ensures PatternOf([pair.first, pair.second], order) == Bits32OfBytes(WordsToBytes(pair, order))
  {
    WordIsItself(pair.first);
    WordIsItself(pair.second);
  }

  lemma WordsCarryBits(bits: int, order: ByteOrder)
    ensures |WordsOfBytes(BytesOfInt(bits), order)| == 2
    ensures PatternOf(WordsOfBytes(BytesOfInt(bits), order), order) == bits % 0x1_0000_0000
  {
    var bytes := BytesOfInt(bits);
    BytesThenBits(bits % 0x1_0000_0000);
    PatternOfPair(BytesToWords(bytes, order), order);
    ByteOrderInverts(WordPair(0, 0), bytes, order);
  }

  lemma SignedInverts(whole: int)
    requires -0x8000_0000 <= whole < 0x8000_0000
    ensures SignedOf(whole % 0x1_0000_0000) == whole
  {
  }

  lemma SixteenBits(whole: int, dataType: DataType)
    requires WordsOf(dataType) == 1 && InRange(whole, dataType)
    ensures var low := ToWord(whole);
            (if dataType == Int16 && low >= 0x8000 then low - 0x1_0000 else low) == whole
    ensures dataType != Int16 ==> ToWord(whole) == whole
  {
  }

  lemma OneWord(whole: int, dataType: DataType, order: ByteOrder, floats: FloatCodec)
    requires WordsOf(dataType) == 1 && InRange(whole, dataType)
    ensures AssembleRaw([ToWord(whole)], dataType, order, floats) == Some(whole as real)
  {
    SixteenBits(whole, dataType);
    WordIsItself(ToWord(whole));
  }

  lemma TwoWords(words: seq<int>, dataType: DataType, order: ByteOrder, floats: FloatCodec, n: Bits32)
    requires |words| == 2 && PatternOf(words, order) == n
    ensures dataType == Int32 ==> AssembleRaw(words, dataType, order, floats) == Some(SignedOf(n) as real)
    ensures dataType == Uint32 ==> AssembleRaw(words, dataType, order, floats) == Some(n as real)
    ensures dataType == Float32 ==> AssembleRaw(words, dataType, order, floats) == floats.ofBits(n)
  {
  }

  lemma OneWordSurvives(whole: int, dataType: DataType, order: ByteOrder, floats: FloatCodec)
    requires WordsOf(dataType) == 1 && InRange(whole, dataType)
    ensures AssembleRaw(WordsOfWhole(whole, dataType, order), dataType, order, floats) == Some(whole as real)
  {
    OneWord(whole, dataType, order, floats);
    SixteenBits(whole, dataType);
    assert WordsOfWhole(whole, dataType, order) == [ToWord(whole)];
  }

  lemma TwoWordsSurvive(whole: int, dataType: DataType, order: ByteOrder, floats: FloatCodec)
    requires WordsOf(dataType) == 2 && dataType != Float32 && InRange(whole, dataType)
    ensures AssembleRaw(WordsOfWhole(whole, dataType, order), dataType, order, floats) == Some(whole as real)
  {
    hide BytesOfInt, PatternOf, WordsOfBytes;
    var words := WordsOfBytes(BytesOfInt(whole), order);
    assert WordsOfWhole(whole, dataType, order) == words;
    WordsCarryBits(whole, order);
    TwoWords(words, dataType, order, floats, whole % 0x1_0000_0000);
    if dataType == Int32 {
      SignedInverts(whole);
    }
  }

  /** A whole number survives its words. */
  lemma WholeSurvives(whole: int, dataType: DataType, order: ByteOrder, floats: FloatCodec)
    requires dataType != Float32 && InRange(whole, dataType)
    ensures AssembleRaw(WordsOfWhole(whole, dataType, order), dataType, order, floats) == Some(whole as real)
  {
    if WordsOf(dataType) == 1 {
      OneWordSurvives(whole, dataType, order, floats);
    } else {
      TwoWordsSurvive(whole, dataType, order, floats);
    }
  }

  ghost predicate ValidWords(words: seq<int>, dataType: DataType) {
    |words| == WordsOf(dataType) && forall i :: 0 <= i < |words| ==> 0 <= words[i] < 0x1_0000
  }

  /** The whole number an integer param's words carry. */
  function WholeOf(words: seq<int>, dataType: DataType, order: ByteOrder): int
    requires words != []
  {
    if |words| == 1 then (if dataType == Int16 && words[0] >= 0x8000 then words[0] - 0x1_0000 else words[0])
    else if dataType == Int32 then SignedOf(PatternOf(words, order))
    else PatternOf(words, order)
  }

  /** The words of an integer param carry a whole number of its range, and are the words of that number. */
  lemma WordsSurvive(words: seq<int>, dataType: DataType, order: ByteOrder, floats: FloatCodec)
    requires dataType != Float32 && ValidWords(words, dataType)
    ensures InRange(WholeOf(words, dataType, order), dataType)
    ensures AssembleRaw(words, dataType, order, floats) == Some(WholeOf(words, dataType, order) as real)
    ensures WordsOfWhole(WholeOf(words, dataType, order), dataType, order) == words
  {
    WordIsItself(words[0]);
    var whole := WholeOf(words, dataType, order);
    if |words| == 1 {
      OneWordBack(words[0], dataType, whole);
      OneWord(whole, dataType, order, floats);
    } else {
      TwoWordsBack(words, order);
      TwoWords(words, dataType, order, floats, PatternOf(words, order));
      SameBytes(PatternOf(words, order));
    }
  }

  lemma OneWordBack(word: Word, dataType: DataType, whole: int)
    requires WordsOf(dataType) == 1
    requires whole == if dataType == Int16 && word >= 0x8000 then word - 0x1_0000 else word
    ensures InRange(whole, dataType) && ToWord(whole) == word
  {
    if whole < 0 {
      assert whole % 0x1_0000 == whole + 0x1_0000;
    }
  }

  lemma TwoWordsBack(words: seq<int>, order: ByteOrder)
    requires |words| == 2 && 0 <= words[0] < 0x1_0000 && 0 <= words[1] < 0x1_0000
    ensures WordsOfBytes(BytesOfBits32(PatternOf(words, order)), order) == words
  {
    var pair := WordPair(words[0], words[1]);
    PatternOfPair(pair, order);
    assert words == [pair.first, pair.second];
    BitsThenBytes(WordsToBytes(pair, order));
    ByteOrderInverts(pair, ByteQuad(0, 0, 0, 0), order);
  }

  lemma SameBytes(n: Bits32)
    ensures BytesOfInt(SignedOf(n)) == BytesOfInt(n) == BytesOfBits32(n)
  {
    assert (n - 0x1_0000_0000) % 0x1_0000_0000 == n == n % 0x1_0000_0000;
  }

  // ---------------------------------------------------------------- rounding

  lemma RoundIsNear(x: real)
    ensures x - 0.5 < Round(x) as real <= x + 0.5
  {
  }

  /** Truncation drops the fraction, towards zero. */
  lemma TruncDropsTheFraction(x: real)
    ensures x >= 0.0 ==> Trunc(x) as real <= x < Trunc(x) as real + 1.0
    ensures x <= 0.0 ==> Trunc(x) as real - 1.0 < x <= Trunc(x) as real
  {
  }

  lemma RoundOfWhole(n: int)
    ensures Round(n as real) == n
  {
  }

  lemma SignOfFactor(x: real, f: real, y: real)
    requires f > 0.0 && x * f == y
    ensures y > 0.0 ==> x > 0.0
    ensures y >= 0.0 ==> x >= 0.0
  {
  }

  lemma HalfStep(d: real, f: real, h: real, y: real)
    requires f > 0.0 && h * f == 0.5 && d * f == y && -0.5 < y <= 0.5
    ensures -h < d <= h
  {
    assert (h - d) * f == 0.5 - y;
    SignOfFactor(h - d, f, 0.5 - y);
    assert (h + d) * f == 0.5 + y;
    SignOfFactor(h + d, f, 0.5 + y);
  }

  /** Rounding to a precision moves a value by at most half of its last digit. */
  lemma RoundToIsNear(value: real, precision: nat)
    ensures -(0.5 / Pow10(precision)) < RoundTo(value, precision) - value <= 0.5 / Pow10(precision)
  {
    hide Pow10, Round;
    var f := Pow10(precision);
    var x := InDigits(value, precision);
    var whole := Round(x) as real;
    RoundIsNear(x);
    var rounded := whole / f;
    assert rounded * f == whole;
    var d := rounded - value;
    assert d * f == rounded * f - value * f;
    HalfStep(d, f, 0.5 / f, whole - x);
  }

  /** A value with no digits beyond the precision stays. */
  lemma RoundToOfGrid(value: real, precision: nat, digits: int)
    requires InDigits(value, precision) == digits as real
    ensures RoundTo(value, precision) == value
  {
    RoundOfWhole(digits);
  }

  lemma NotNegative(a: real, b: real)
    requires a >= 0.0 && b >= 0.0
    ensures a * b >= 0.0
  {
  }

  lemma Spread(a: real, b: real, c: real)
    ensures (a + b) * c == a * c + b * c
    ensures (-a) * c == -(a * c) && (-b) * c == -(b * c)
    ensures a == 0.5 ==> a * c == c / 2.0
    ensures b == 0.5 ==> b * c == c / 2.0
  {
  }

  lemma AbsOfProduct(x: real, k: real)
    requires -0.5 <= x <= 0.5
    ensures Abs(x * k) <= Abs(k) / 2.0
  {
    var m := Abs(k);
    NotNegative(0.5 - x, m);
    NotNegative(x + 0.5, m);
    Spread(0.5, -x, m);
    Spread(x, 0.5, m);
    if k < 0.0 {
      Spread(x, -x, m);
      assert x * k == (-x) * m;
    }
  }

  // ---------------------------------------------------------------- numbers

  /** A param that decodes to a plain number. */
  ghost predicate PlainNumber(param: ParamSpec) {
    param.bits.None? && param.states.None? && param.dataType != Float32
  }

  /** What a plain param reads from a whole number, and what it writes for a value. */
  function ReadBack(whole: int, param: ParamSpec): real {
    RoundTo(Scaled(whole as real, param), param.precision)
  }

  lemma ReadsNumber(words: seq<int>, whole: int, param: ParamSpec, floats: FloatCodec)
    requires PlainNumber(param)
    requires AssembleRaw(words, param.dataType, param.byteOrder, floats) == Some(whole as real)
    ensures DecodeParam(words, param, floats) == Num(ReadBack(whole, param))
  {
    hide AssembleRaw, RoundTo;
  }

  lemma WritesNumber(v: real, param: ParamSpec, floats: FloatCodec)
    requires PlainNumber(param) && param.scale != 0.0
    ensures EncodeParam(Num(v), param, floats) == WordsOfWhole(Round(RawOf(v, param)), param.dataType, param.byteOrder)
  {
    hide WordsOfWhole, RawOf, Round;
  }

  /** The stored number is within half a register step of the value. */
  lemma StoredIsNear(v: real, param: ParamSpec)
    requires param.scale != 0.0
    ensures Abs(Scaled(Round(RawOf(v, param)) as real, param) - v) <= Abs(param.scale) / 2.0
  {
    hide Round;
    var k := param.scale;
    var raw := RawOf(v, param);
    RoundIsNear(raw);
    var whole := Round(raw) as real;
    var d := whole - raw;
    AbsOfProduct(d, k);
    assert raw * k == v - param.offset;
    assert d * k == whole * k - raw * k;
  }

  lemma ReadBackError(v: real, param: ParamSpec)
    requires param.scale != 0.0
    ensures Abs(ReadBack(Round(RawOf(v, param)), param) - v) <= Abs(param.scale) / 2.0 + 0.5 / Pow10(param.precision)
  {
    hide RoundTo, Pow10, Scaled, RawOf, Round;
    var stored := Scaled(Round(RawOf(v, param)) as real, param);
    StoredIsNear(v, param);
    RoundToIsNear(stored, param.precision);
    Triangle(RoundTo(stored, param.precision), stored, v, Abs(param.scale) / 2.0, 0.5 / Pow10(param.precision));
  }

  lemma Triangle(a: real, b: real, c: real, near: real, far: real)
    requires -far <= a - b <= far && Abs(b - c) <= near
    ensures Abs(a - c) <= near + far
  {
  }

  /** Writing a number and reading it back moves it by at most half a register step and half a digit. */
  lemma EncodeDecodeError(v: real, param: ParamSpec, floats: FloatCodec)
    requires PlainNumber(param) && param.scale != 0.0
    requires InRange(Round(RawOf(v, param)), param.dataType)
    ensures var back := DecodeParam(EncodeParam(Num(v), param, floats), param, floats);
            && back.Num?
            && Abs(back.number - v) <= Abs(param.scale) / 2.0 + 0.5 / Pow10(param.precision)
  {
    hide AssembleRaw, WordsOfWhole, RoundTo, Pow10, Round, EncodeParam, DecodeParam, ReadBack, RawOf;
    var whole := Round(RawOf(v, param));
    WritesNumber(v, param, floats);
    WholeSurvives(whole, param.dataType, param.byteOrder, floats);
    ReadsNumber(WordsOfWhole(whole, param.dataType, param.byteOrder), whole, param, floats);
    ReadBackError(v, param);
  }

  lemma RoundNearWhole(whole: int, x: real)
    requires -0.5 <= x - whole as real < 0.5
    ensures Round(x) == whole
  {
  }

  lemma SmallQuotient(d: real, k: real, h: real)
    requires k != 0.0 && h > 0.0 && -h < d <= h
    requires h < Abs(k) / 2.0 || k == -2.0 * h
    ensures -0.5 <= d / k < 0.5
  {
    var q := d / k;
    assert q * k == d;
    var m := Abs(k);
    var y := if k > 0.0 then d else -d;
    assert q * m == y;
    assert (q + 0.5) * m == y + m / 2.0;
    SignOfFactor(q + 0.5, m, y + m / 2.0);
    assert (0.5 - q) * m == m / 2.0 - y;
    SignOfFactor(0.5 - q, m, m / 2.0 - y);
  }

  /** The register step the decoder still tells apart after rounding to the precision. */
  ghost predicate StepVisible(param: ParamSpec) {
    param.scale != 0.0
    && (1.0 / Pow10(param.precision) < Abs(param.scale) || param.scale == -(1.0 / Pow10(param.precision)))
  }

  lemma VisibleStep(param: ParamSpec, h: real)
    requires StepVisible(param) && h == 0.5 / Pow10(param.precision)
    ensures param.scale != 0.0 && h > 0.0 && (h < Abs(param.scale) / 2.0 || param.scale == -2.0 * h)
  {
    hide Pow10;
    assert 1.0 / Pow10(param.precision) == 2.0 * h;
  }

  /** A value near the exact one, by less than half a step, is written as the same whole number. */
  lemma NearestStep(whole: int, param: ParamSpec, read: real, h: real)
    requires param.scale != 0.0 && h > 0.0 && -h < read - Scaled(whole as real, param) <= h
    requires h < Abs(param.scale) / 2.0 || param.scale == -2.0 * h
    ensures Round(RawOf(read, param)) == whole
  {
    hide Round;
    var d := read - Scaled(whole as real, param);
    SmallQuotient(d, param.scale, h);
    QuotientOfSum(whole as real, param.scale, d, read - param.offset);
    RoundNearWhole(whole, RawOf(read, param));
  }

  lemma WriteAfterRead(whole: int, param: ParamSpec)
    requires StepVisible(param)
    ensures Round(RawOf(ReadBack(whole, param), param)) == whole
  {
    hide RoundTo, Pow10, Round, Abs, StepVisible, Scaled, RawOf;
    var h := 0.5 / Pow10(param.precision);
    VisibleStep(param, h);
    RoundToIsNear(Scaled(whole as real, param), param.precision);
    NearestStep(whole, param, ReadBack(whole, param), h);
  }

  /** Reading words and writing them back gives the same words. */
  lemma DecodeEncodeSame(words: seq<int>, param: ParamSpec, floats: FloatCodec)
    requires PlainNumber(param) && StepVisible(param) && ValidWords(words, param.dataType)
    ensures EncodeParam(DecodeParam(words, param, floats), param, floats) == words
  {
    hide AssembleRaw, WordsOfWhole, WholeOf, RoundTo, Pow10, Round, EncodeParam, DecodeParam, ReadBack, RawOf;
    var whole := WholeOf(words, param.dataType, param.byteOrder);
    WordsSurvive(words, param.dataType, param.byteOrder, floats);
    ReadsNumber(words, whole, param, floats);
    WritesNumber(ReadBack(whole, param), param, floats);
    WriteAfterRead(whole, param);
  }

  lemma QuotientOfSum(w: real, k: real, d: real, sum: real)
    requires k != 0.0 && sum == w * k + d
    ensures sum / k == w + d / k
  {
    var q := d / k;
    assert q * k == d;
    assert (w + q) * k == sum;
  }

  /** The words of a zero register. */
  function Zeros(dataType: DataType): (words: seq<int>)
    ensures |words| == WordsOf(dataType)
  {
    if WordsOf(dataType) == 1 then [0] else [0, 0]
  }

  lemma ZeroBytes(order: ByteOrder)
    ensures WordsOfBytes(BytesOfInt(0), order) == [0, 0]
  {
    assert BytesOfBits32(0) == ByteQuad(0, 0, 0, 0);
  }

  lemma ZeroWords(dataType: DataType, order: ByteOrder, floats: FloatCodec)
    requires dataType != Float32
    ensures ValidWords(Zeros(dataType), dataType)
    ensures WordsOfWhole(0, dataType, order) == Zeros(dataType)
    ensures AssembleRaw(Zeros(dataType), dataType, order, floats) == Some(0 as real)
  {
    hide AssembleRaw, WordsOfBytes;
    ZeroBytes(order);
    WholeSurvives(0, dataType, order, floats);
  }

  /** The offset at which a step that is too fine is lost on the word zero. */
  function LosingOffset(param: ParamSpec): real {
    if param.scale > 0.0 then 0.5 / Pow10(param.precision) else -param.scale / 2.0
  }

  lemma LostStep(param: ParamSpec)
    requires param.scale != 0.0 && !StepVisible(param)
    ensures var p := param.(offset := LosingOffset(param));
            Round(RawOf(ReadBack(0, p), p)) >= 1
  {
    hide Pow10, Round, RoundTo;
    var p := param.(offset := LosingOffset(param));
    assert Scaled(0 as real, p) == p.offset;
    assert ReadBack(0, p) == RoundTo(p.offset, p.precision);
    if p.scale > 0.0 {
      TooFineUp(p);
    } else {
      TooFineDown(p);
    }
  }

  lemma TooFineUp(p: ParamSpec)
    requires 0.0 < p.scale <= 1.0 / Pow10(p.precision) && p.offset == 0.5 / Pow10(p.precision)
    ensures Round(RawOf(RoundTo(p.offset, p.precision), p)) >= 1
  {
    hide Pow10;
    var f := Pow10(p.precision);
    var h := 0.5 / f;
    assert InDigits(p.offset, p.precision) == 0.5;
    assert RoundTo(p.offset, p.precision) == 1.0 / f == 2.0 * h;
    var raw := RawOf(RoundTo(p.offset, p.precision), p);
    assert raw * p.scale == h;
    FineStep(p.scale, h, raw);
  }

  lemma TooFineDown(p: ParamSpec)
    requires p.scale < 0.0 && -p.scale < 1.0 / Pow10(p.precision) && p.offset == -p.scale / 2.0
    ensures Round(RawOf(RoundTo(p.offset, p.precision), p)) >= 1
  {
    hide Pow10;
    HalfIsLost(p.offset, p.precision);
    var raw := RawOf(0.0, p);
    var m := -p.scale;
    assert raw * m == p.offset;
    FineStep(m, p.offset, raw);
  }

  lemma LostWord(param: ParamSpec, floats: FloatCodec)
    requires PlainNumber(param) && !StepVisible(param)
    ensures var p := param.(offset := LosingOffset(param));
            EncodeParam(DecodeParam(Zeros(p.dataType), p, floats), p, floats) != Zeros(p.dataType)
  {
    var p := param.(offset := LosingOffset(param));
    if p.scale != 0.0 {
      hide AssembleRaw, WordsOfWhole, Zeros, Pow10, Round, RoundTo, EncodeParam, DecodeParam, ReadBack, RawOf,
          LosingOffset;
      ZeroWords(p.dataType, p.byteOrder, floats);
      ReadsNumber(Zeros(p.dataType), 0, p, floats);
      WritesNumber(ReadBack(0, p), p, floats);
      LostStep(param);
      NotZero(Round(RawOf(ReadBack(0, p), p)), p.dataType, p.byteOrder, floats);
    }
  }

  lemma FineStep(k: real, h: real, raw: real)
    requires 0.0 < k <= 2.0 * h && raw * k == h
    ensures raw >= 0.5
  {
    var y := h - k / 2.0;
    assert (raw - 0.5) * k == y;
    SignOfFactor(raw - 0.5, k, y);
  }

  lemma HalfIsLost(value: real, precision: nat)
    requires 0.0 < value && 2.0 * value < 1.0 / Pow10(precision)
    ensures RoundTo(value, precision) == 0.0
  {
    hide Pow10;
    var f := Pow10(precision);
    var g := 1.0 / f;
    assert g * f == 1.0;
    var y := (g - 2.0 * value) * f;
    assert y > 0.0 && value * f > 0.0;
    assert value * f == (1.0 - y) / 2.0;
    assert 0.0 < InDigits(value, precision) < 0.5;
  }

  lemma NotZero(whole: int, dataType: DataType, order: ByteOrder, floats: FloatCodec)
    requires dataType != Float32 && whole != 0
    ensures WordsOfWhole(whole, dataType, order) != Zeros(dataType)
  {
    hide AssembleRaw, WordsOfBytes, Zeros;
    ZeroWords(dataType, order, floats);
    if InRange(whole, dataType) {
      WholeSurvives(whole, dataType, order, floats);
    }
  }

  /** Every word of every offset survives reading and writing. */
  ghost predicate WordsAlwaysSurvive(param: ParamSpec, floats: FloatCodec) {
    forall offset: real, words: seq<int> :: ValidWords(words, param.dataType) ==>
      EncodeParam(DecodeParam(words, param.(offset := offset), floats), param.(offset := offset), floats) == words
  }

  /** Exactly when the register step is visible: the decimal step is finer, or equal with a negative scale. */
  lemma WordsSurviveIffStepVisible(param: ParamSpec, floats: FloatCodec)
    requires PlainNumber(param)
    ensures WordsAlwaysSurvive(param, floats) <==> StepVisible(param)
  {
    if StepVisible(param) {
      forall offset: real, words: seq<int> | ValidWords(words, param.dataType)
        ensures EncodeParam(DecodeParam(words, param.(offset := offset), floats), param.(offset := offset), floats)
                == words
      {
        DecodeEncodeSame(words, param.(offset := offset), floats);
      }
    } else {
      LostWord(param, floats);
      ZeroWords(param.dataType, param.byteOrder, floats);
    }
  }
}
