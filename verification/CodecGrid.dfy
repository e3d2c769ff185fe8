/** Which words survive decoding and encoding under a param's own offset. */
module CodecGrid {
  import opened Wrappers
  import opened RegisterTypes
  import opened Profiles
  import opened Codec
  import opened CodecInversion

  ghost predicate IsWhole(x: real) {
    x == x.Floor as real
  }

  /** The words are read and written back as they were. */
  ghost predicate Survives(words: seq<int>, param: ParamSpec, floats: FloatCodec) {
    EncodeParam(DecodeParam(words, param, floats), param, floats) == words
  }

  ghost predicate EveryWordSurvives(param: ParamSpec, floats: FloatCodec) {
    forall words: seq<int> :: ValidWords(words, param.dataType) ==> Survives(words, param, floats)
  }

  /** The number a plain param writes after it has read this one. */
  ghost function WrittenBack(whole: int, param: ParamSpec): int
    requires param.scale != 0.0
  {
    Round(RawOf(ReadBack(whole, param), param))
  }

  lemma TwoWordsAreWords(bytes: ByteQuad, order: ByteOrder)
    ensures var words := WordsOfBytes(bytes, order);
            |words| == 2 && 0 <= words[0] < 0x1_0000 && 0 <= words[1] < 0x1_0000
  {
    hide BytesToWords;
  }

  lemma WordsOfWholeDiffer(a: int, b: int, dataType: DataType, order: ByteOrder, floats: FloatCodec)
    requires dataType != Float32 && InRange(a, dataType)
    ensures WordsOfWhole(a, dataType, order) == WordsOfWhole(b, dataType, order) <==> a == b
  {
    hide AssembleRaw, WordsOfBytes;
    TwoWordsAreWords(BytesOfInt(a), order);
    if InRange(b, dataType) {
      WholeSurvives(a, dataType, order, floats);
      WholeSurvives(b, dataType, order, floats);
    }
  }

  lemma SurvivesIffWrittenBack(words: seq<int>, param: ParamSpec, floats: FloatCodec)
    requires PlainNumber(param) && param.scale != 0.0 && ValidWords(words, param.dataType)
    ensures var whole := WholeOf(words, param.dataType, param.byteOrder);
            Survives(words, param, floats) <==> WrittenBack(whole, param) == whole
  {
    hide AssembleRaw, WordsOfWhole, WholeOf, Round, EncodeParam, DecodeParam, ReadBack, RawOf, InRange;
    var whole := WholeOf(words, param.dataType, param.byteOrder);
    WordsSurvive(words, param.dataType, param.byteOrder, floats);
    ReadsNumber(words, whole, param, floats);
    WritesNumber(ReadBack(whole, param), param, floats);
    WordsOfWholeDiffer(whole, WrittenBack(whole, param), param.dataType, param.byteOrder, floats);
  }

  /** With a scale of zero nothing is ever written. */
  lemma NoScaleNoWords(words: seq<int>, param: ParamSpec, floats: FloatCodec)
    requires param.scale == 0.0 && ValidWords(words, param.dataType)
    ensures !Survives(words, param, floats)
  {
    hide DecodeParam, ToScaledValue;
  }

  // ---------------------------------------------------------------- a scale of whole digits

  /** The scale is one digit and the offset lies half way between two. */
  ghost predicate HalfwayOffset(param: ParamSpec) {
    var o := InDigits(param.offset, param.precision);
    InDigits(param.scale, param.precision) == 1.0 && o - o.Floor as real == 0.5
  }

  lemma RoundShifts(n: int, x: real)
    ensures Round(n as real + x) == n + Round(x)
  {
  }

  /** In digits, what is read is a whole number of steps and the rounded offset. */
  lemma ReadInDigits(whole: int, param: ParamSpec, s: int)
    requires InDigits(param.scale, param.precision) == s as real
    ensures InDigits(ReadBack(whole, param), param.precision) ==
            (whole * s + Round(InDigits(param.offset, param.precision))) as real
  {
    hide Pow10, Round;
    var f, k, b := Pow10(param.precision), param.scale, param.offset;
    var w := whole as real;
    Spread(w * k, b, f);
    assert w * k * f == w * (k * f);
    assert w * s as real == (whole * s) as real;
    var o := InDigits(b, param.precision);
    var exact := InDigits(Scaled(w, param), param.precision);
    assert exact == (whole * s) as real + o;
    RoundShifts(whole * s, o);
    var digits := (whole * s + Round(o)) as real;
    var read := digits / f;
    assert Round(exact) as real == digits;
    assert ReadBack(whole, param) == read;
    assert read * f == digits;
    assert InDigits(read, param.precision) == digits;
  }

  /** By which the number written back misses the number read, times the step. */
  lemma WrittenMissesBy(whole: int, param: ParamSpec, s: int)
    requires param.scale != 0.0 && InDigits(param.scale, param.precision) == s as real
    ensures var o := InDigits(param.offset, param.precision);
            (RawOf(ReadBack(whole, param), param) - whole as real) * s as real == Round(o) as real - o
  {
    hide Round, ReadBack, Pow10;
    var f, k, b := Pow10(param.precision), param.scale, param.offset;
    var read := ReadBack(whole, param);
    var raw := RawOf(read, param);
    ReadInDigits(whole, param, s);
    assert raw * k == read - b;
    assert raw * (k * f) == raw * k * f;
    Spread(read, -b, f);
    Spread(b, 0.0, f);
    Spread(raw, -(whole as real), s as real);
    Spread(whole as real, 0.0, s as real);
    assert (whole * s) as real == whole as real * s as real;
  }

  lemma MissIsSmall(d: real, s: int, e: real)
    requires s != 0 && d * s as real == e && -0.5 < e <= 0.5
    ensures -0.5 <= d <= 0.5 && (d == 0.5 <==> s == 1 && e == 0.5)
  {
    if s > 1 || s < -1 {
      var n := if s > 0 then s as real else -(s as real);
      var a := Abs(d);
      Spread(d, -d, n);
      Spread(d, -d, s as real);
      assert a * n == Abs(e);
      NotNegative(a, n - 2.0);
      Spread(n, -2.0, a);
    }
  }

  lemma WrittenBackOnGrid(whole: int, param: ParamSpec)
    requires param.scale != 0.0 && IsWhole(InDigits(param.scale, param.precision))
    ensures WrittenBack(whole, param) == whole + if HalfwayOffset(param) then 1 else 0
  {
    hide ReadBack, RawOf, InDigits, Round;
    var o := InDigits(param.offset, param.precision);
    var s := InDigits(param.scale, param.precision).Floor;
    ScaleInDigits(param);
    WrittenMissesBy(whole, param, s);
    var missed := RawOf(ReadBack(whole, param), param) - whole as real;
    RoundIsNear(o);
    MissIsSmall(missed, s, Round(o) as real - o);
    RoundShifts(whole, missed);
    RoundedUpByHalf(o);
    RoundedMiss(missed);
  }

  lemma RoundedUpByHalf(o: real)
    ensures Round(o) as real - o == 0.5 <==> o - o.Floor as real == 0.5
  {
    var x := o - o.Floor as real;
    RoundShifts(o.Floor, x);
    assert Round(x) == if x >= 0.5 then 1 else 0;
  }

  lemma RoundedMiss(d: real)
    requires -0.5 <= d <= 0.5
    ensures Round(d) == if d == 0.5 then 1 else 0
  {
  }

  lemma ScaleInDigits(param: ParamSpec)
    requires param.scale != 0.0
    ensures InDigits(param.scale, param.precision) != 0.0
  {
  }

  /**
   A param whose scale is a whole number of kept digits, as every scaled param of the shipped profiles has it: a
   word survives, under the param's own offset, unless the scale is one digit and the offset lies half way between
   two digits.
   */
  lemma WordSurvivesIffNotHalfway(words: seq<int>, param: ParamSpec, floats: FloatCodec)
    requires PlainNumber(param) && ValidWords(words, param.dataType)
    requires IsWhole(InDigits(param.scale, param.precision))
    ensures Survives(words, param, floats) <==> param.scale != 0.0 && !HalfwayOffset(param)
  {
    hide Survives, WrittenBack, InDigits;
    if param.scale == 0.0 {
      NoScaleNoWords(words, param, floats);
    } else {
      SurvivesIffWrittenBack(words, param, floats);
      WrittenBackOnGrid(WholeOf(words, param.dataType, param.byteOrder), param);
    }
  }

  /** In particular where the offset, too, has no digits beyond the precision. */
  lemma WholeDigitsSurvive(words: seq<int>, param: ParamSpec, floats: FloatCodec)
    requires PlainNumber(param) && ValidWords(words, param.dataType) && param.scale != 0.0
    requires IsWhole(InDigits(param.scale, param.precision)) && IsWhole(InDigits(param.offset, param.precision))
    ensures EncodeParam(DecodeParam(words, param, floats), param, floats) == words
  {
    hide InDigits, EncodeParam, DecodeParam;
    WordSurvivesIffNotHalfway(words, param, floats);
  }

  // ---------------------------------------------------------------- a scale finer than the kept digits

  /** The digits read from a number. */
  function DigitsRead(whole: int, param: ParamSpec): int {
    Round(InDigits(Scaled(whole as real, param), param.precision))
  }

  /** How far the numbers of the type reach: one less than there are words. */
  function Span(dataType: DataType): int {
    RangeOf(dataType).1 - RangeOf(dataType).0 - 1
  }

  /** Over the whole range the digits move by less than there are steps. */
  ghost predicate TooFine(param: ParamSpec) {
    Abs(InDigits(param.scale, param.precision)) * Span(param.dataType) as real <= Span(param.dataType) as real - 1.0
  }

  /** Where every number of the range is written back, no two are read as the same digits. */
  lemma DigitsDiffer(a: int, b: int, param: ParamSpec)
    requires param.scale != 0.0 && WrittenBack(a, param) == a && WrittenBack(b, param) == b && a != b
    ensures DigitsRead(a, param) != DigitsRead(b, param)
  {
    hide RawOf, Round, Pow10;
  }

  lemma DigitsOf(whole: int, param: ParamSpec)
    ensures var g := InDigits(param.scale, param.precision);
            var exact := whole as real * g + InDigits(param.offset, param.precision);
            exact - 0.5 < DigitsRead(whole, param) as real <= exact + 0.5
  {
    hide Round, Pow10;
    var f := Pow10(param.precision);
    Spread(whole as real * param.scale, param.offset, f);
    assert whole as real * param.scale * f == whole as real * (param.scale * f);
    RoundIsNear(InDigits(Scaled(whole as real, param), param.precision));
  }

  lemma DigitsAreOrdered(whole: int, param: ParamSpec)
    ensures param.scale > 0.0 ==> DigitsRead(whole, param) <= DigitsRead(whole + 1, param)
    ensures param.scale < 0.0 ==> DigitsRead(whole + 1, param) <= DigitsRead(whole, param)
  {
    var f := Pow10(param.precision);
    var x, y := Scaled(whole as real, param), Scaled((whole + 1) as real, param);
    Spread(whole as real, 1.0, param.scale);
    assert y == x + param.scale;
    Spread(x, param.scale, f);
    NotNegative(if param.scale > 0.0 then param.scale else -param.scale, f);
    Spread(param.scale, 0.0, f);
  }

  /** If no two numbers are read alike, the digits move by at least one a step. */
  lemma {:induction false} DigitsMove(lo: int, n: nat, param: ParamSpec)
    requires param.scale != 0.0
    requires forall i :: lo <= i < lo + n ==> DigitsRead(i, param) != DigitsRead(i + 1, param)
    ensures param.scale > 0.0 ==> DigitsRead(lo + n, param) - DigitsRead(lo, param) >= n
    ensures param.scale < 0.0 ==> DigitsRead(lo, param) - DigitsRead(lo + n, param) >= n
  {
    hide DigitsRead;
    if n > 0 {
      DigitsMove(lo, n - 1, param);
      DigitsAreOrdered(lo + n - 1, param);
      assert DigitsRead(lo + n - 1, param) != DigitsRead(lo + n - 1 + 1, param);
    }
  }

  /** Steps that are too fine: some two neighbours are read as the same digits. */
  lemma NeighboursMeet(param: ParamSpec)
    requires param.scale != 0.0 && TooFine(param)
    ensures var range := RangeOf(param.dataType);
            exists i :: range.0 <= i < range.1 - 1 && DigitsRead(i, param) == DigitsRead(i + 1, param)
  {
    hide DigitsRead, InDigits;
    var lo, n := RangeOf(param.dataType).0, Span(param.dataType);
    var g := InDigits(param.scale, param.precision);
    if forall i :: lo <= i < lo + n ==> DigitsRead(i, param) != DigitsRead(i + 1, param) {
      DigitsMove(lo, n, param);
      DigitsOf(lo, param);
      DigitsOf(lo + n, param);
      Spread(lo as real, n as real, g);
      assert (lo + n) as real == lo as real + n as real;
      SignOfDigits(param);
      Spread(g, -g, n as real);
      assert false;
    }
  }

  lemma SignOfDigits(param: ParamSpec)
    ensures var g := InDigits(param.scale, param.precision);
            (param.scale > 0.0 ==> g > 0.0) && (param.scale < 0.0 ==> g < 0.0)
  {
  }

  /** Every number of the range has words that carry it. */
  lemma WordsOfNumber(whole: int, param: ParamSpec, floats: FloatCodec) returns (words: seq<int>)
    requires param.dataType != Float32 && InRange(whole, param.dataType)
    ensures ValidWords(words, param.dataType) && WholeOf(words, param.dataType, param.byteOrder) == whole
  {
    hide AssembleRaw, WordsOfBytes, PatternOf, WholeOf;
    words := WordsOfWhole(whole, param.dataType, param.byteOrder);
    WholeSurvives(whole, param.dataType, param.byteOrder, floats);
    TwoWordsAreWords(BytesOfInt(whole), param.byteOrder);
    WordsSurvive(words, param.dataType, param.byteOrder, floats);
  }

  /** A step too fine for the kept digits: whatever the offset, some word does not survive. */
  lemma TooFineLosesAWord(param: ParamSpec, floats: FloatCodec)
    requires PlainNumber(param) && TooFine(param)
    ensures !EveryWordSurvives(param, floats)
  {
    hide WrittenBack, TooFine, DigitsRead, Survives, WordsOfWhole, AssembleRaw;
    ZeroWords(param.dataType, param.byteOrder, floats);
    if param.scale == 0.0 {
      NoScaleNoWords(Zeros(param.dataType), param, floats);
    } else {
      NeighboursMeet(param);
      var range := RangeOf(param.dataType);
      var i :| range.0 <= i < range.1 - 1 && DigitsRead(i, param) == DigitsRead(i + 1, param);
      var a := WordsOfNumber(i, param, floats);
      var b := WordsOfNumber(i + 1, param, floats);
      if Survives(a, param, floats) && Survives(b, param, floats) {
        SurvivesIffWrittenBack(a, param, floats);
        SurvivesIffWrittenBack(b, param, floats);
        DigitsDiffer(i, i + 1, param);
      }
    }
  }
}
