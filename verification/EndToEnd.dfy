/**
The whole way round: values laid into registers, read by the blocks of a plan and decoded from the frame.
What a plan decodes depends on the registers alone, so merged, naive and declared plans mean the same;
and values the registers can carry come back as they were.
*/
module EndToEnd {
  import opened Wrappers
  import opened Sequences
  import opened RegisterTypes
  import opened Profiles
  import opened Codec
  import opened CodecInversion
  import opened CodecRoundTrip
  import opened ReadPlan
  import opened PlanPlacement
  import opened FrameDecoding
  import Validation

  /** What the registers say about one param, whoever reads them. */
  function WordsAt(registers: Registers, param: ParamSpec): seq<int> {
    BlockWords(registers, param.registerType, param.address, WordsOf(param.dataType))
  }

  // ---------------------------------------------------------------- the frame shows the registers

  ghost predicate HeldBySome(blocks: seq<PlanBlock>, e: PlanEntry) {
    exists b :: b in blocks && Holds(b, e)
  }

  lemma {:induction false} FrameShowsRegisters(blocks: seq<PlanBlock>, registers: Registers, e: PlanEntry)
    requires WellFormedEntry(e) && HeldBySome(blocks, e)
    ensures WordsFor(FrameOf(blocks, registers), e.param) == Some(WordsAt(registers, e.param))
  {
    var frame := FrameOf(blocks, registers);
    assert frame[1..] == FrameOf(blocks[1..], registers);
    var first := blocks[0];
    assert LiesIn(e.param, frame[0]) <==> Holds(first, e);
    if Holds(first, e) {
      var offset := e.param.address - first.startAddress;
      assert frame[0].words[offset..offset + WordsOf(e.param.dataType)] == WordsAt(registers, e.param);
    } else {
      var b :| b in blocks && Holds(b, e);
      assert b in blocks[1..];
      FrameShowsRegisters(blocks[1..], registers, e);
    }
  }

  function MetricsAt(entries: seq<PlanEntry>, registers: Registers, floats: FloatCodec): seq<Metric> {
    seq(|entries|, i requires 0 <= i < |entries| =>
      MetricOf(entries[i].param, WordsAt(registers, entries[i].param), floats))
  }

  lemma {:induction false} MetricsFromRegisters(
    entries: seq<PlanEntry>, blocks: seq<PlanBlock>, registers: Registers, floats: FloatCodec)
    requires WellFormedEntries(entries)
    requires forall e :: e in entries ==> HeldBySome(blocks, e)
    ensures MetricsOf(entries, FrameOf(blocks, registers), floats) == MetricsAt(entries, registers, floats)
  {
    if entries != [] {
      assert entries[0] in entries;
      FrameShowsRegisters(blocks, registers, entries[0]);
      forall e | e in entries[1..] ensures HeldBySome(blocks, e) {
        assert e in entries;
      }
      MetricsFromRegisters(entries[1..], blocks, registers, floats);
    }
  }

  lemma {:induction false} ListedSomewhere(blocks: seq<PlanBlock>, key: string)
    requires key in KeyBag(blocks)
    ensures exists b :: b in blocks && key in b.paramKeys
  {
    var n := |blocks| - 1;
    if key in blocks[n].paramKeys {
      assert blocks[n] in blocks;
    } else {
      assert key !in multiset(blocks[n].paramKeys);
      ListedSomewhere(blocks[..n], key);
      var b :| b in blocks[..n] && key in b.paramKeys;
      assert b in blocks;
    }
  }

  /** Any plan that can be built decodes to exactly what the registers say, so every mode decodes alike. */
  lemma PlansDecodeAlike(profile: Profile, options: Options, registers: Registers, floats: FloatCodec)
    requires UniqueKeys(EntriesOf(profile)) && DisjointEntries(EntriesOf(profile))
    requires !Unbuildable(profile, options)
    ensures var blocks := SortBy(BuiltBlocks(profile, options), BlockLe);
            DecodeFrame(profile, FrameOf(blocks, registers), floats) == MetricsAt(EntriesOf(profile), registers, floats)
  {
    var entries := EntriesOf(profile);
    var blocks := SortBy(BuiltBlocks(profile, options), BlockLe);
    hide BuiltBlocks, SortBy, EntriesOf, Unbuildable;
    PlanPlacesEveryParamOnce(profile, options);
    EntriesAreOrdered(profile);
    forall e | e in entries ensures HeldBySome(blocks, e) {
      var i :| 0 <= i < |entries| && entries[i] == e;
      assert KeysOf(entries)[i] == e.param.key;
      assert e.param.key in multiset(KeysOf(entries));
      ListedSomewhere(blocks, e.param.key);
    }
    MetricsFromRegisters(entries, blocks, registers, floats);
  }

  // ---------------------------------------------------------------- the registers hold the values

  lemma {:induction false} WordsArePut(table: map<int, int>, address: int, words: seq<int>, a: int)
    ensures a in WithWords(table, address, words) <==> a in table || address <= a < address + |words|
    ensures a in WithWords(table, address, words) ==>
              (WithWords(table, address, words)[a] ==
               if address <= a < address + |words| then words[a - address] else table[a])
  {
    if words != [] {
      WordsArePut(table, address, words[..|words| - 1], a);
    }
  }

  /** What the entry's own words make of its register `a`. */
  ghost predicate Shows(table: map<int, int>, e: PlanEntry, words: seq<int>, a: int)
    requires words == [] || |words| == e.words
    requires e.start <= a <= e.end && WellFormedEntry(e)
  {
    && (a in table <==> words != [])
    && (words != [] ==> table[a] == words[a - e.start])
  }

  lemma PutShows(table: map<int, int>, e: PlanEntry, words: seq<int>, a: int)
    requires WellFormedEntry(e) && e.start <= a <= e.end && a !in table
    requires words == [] || |words| == e.words
    ensures Shows(WithWords(table, e.param.address, words), e, words, a)
  {
    WordsArePut(table, e.param.address, words, a);
  }

  lemma PutElsewhere(table: map<int, int>, e: PlanEntry, words: seq<int>, a: int)
    requires WellFormedEntry(e) && !(e.start <= a <= e.end)
    requires words == [] || |words| == e.words
    ensures a in WithWords(table, e.param.address, words) <==> a in table
    ensures a in table ==> WithWords(table, e.param.address, words)[a] == table[a]
  {
    WordsArePut(table, e.param.address, words, a);
  }

  lemma EntryWords(e: PlanEntry, values: map<string, DecodedValue>, floats: FloatCodec)
    requires WellFormedEntry(e)
    ensures WordsOfEntry(e, values, floats) == [] || |WordsOfEntry(e, values, floats)| == e.words
  {
  }

  /** What stands at a register: the word of the entry that covers it, if it wrote any. */
  lemma {:induction false} RegisterHolds(
    entries: seq<PlanEntry>, values: map<string, DecodedValue>, floats: FloatCodec, i: nat, a: int)
    requires WellFormedEntries(entries) && DisjointEntries(entries)
    requires i < |entries| && entries[i].start <= a <= entries[i].end
    ensures WordsOfEntry(entries[i], values, floats) == []
        || |WordsOfEntry(entries[i], values, floats)| == entries[i].words
    ensures Shows(TableOf(RegistersOf(entries, values, floats), entries[i].registerType), entries[i],
                  WordsOfEntry(entries[i], values, floats), a)
  {
    hide WordsOfEntry, WithWords;
    var n := |entries| - 1;
    var e, last := entries[i], entries[n];
    assert e in entries && last in entries;
    EntryWords(e, values, floats);
    EntryWords(last, values, floats);
    var before := RegistersOf(entries[..n], values, floats);
    if i == n {
      NothingElse(entries[..n], values, floats, e, a);
      PutShows(TableOf(before, e.registerType), e, WordsOfEntry(e, values, floats), a);
    } else {
      assert !Share(e, last);
      RegisterHolds(entries[..n], values, floats, i, a);
      if e.registerType == last.registerType {
        PutElsewhere(TableOf(before, last.registerType), last, WordsOfEntry(last, values, floats), a);
      }
    }
  }

  lemma {:induction false} NothingElse(
    entries: seq<PlanEntry>, values: map<string, DecodedValue>, floats: FloatCodec, e: PlanEntry, a: int)
    requires WellFormedEntries(entries) && WellFormedEntry(e) && e.start <= a <= e.end
    requires forall i :: 0 <= i < |entries| ==> !Share(entries[i], e)
    ensures a !in TableOf(RegistersOf(entries, values, floats), e.registerType)
  {
    hide WordsOfEntry, WithWords;
    if entries != [] {
      var n := |entries| - 1;
      var last := entries[n];
      assert last in entries;
      NothingElse(entries[..n], values, floats, e, a);
      EntryWords(last, values, floats);
      var before := RegistersOf(entries[..n], values, floats);
      if e.registerType == last.registerType {
        PutElsewhere(TableOf(before, last.registerType), last, WordsOfEntry(last, values, floats), a);
      }
    }
  }

  /** A param's registers hold its encoded words, or zeros when its value could not be encoded. */
  lemma RegistersHoldValue(entries: seq<PlanEntry>, values: map<string, DecodedValue>, floats: FloatCodec, i: nat)
    requires WellFormedEntries(entries) && DisjointEntries(entries) && i < |entries|
    ensures var words := WordsOfEntry(entries[i], values, floats);
            WordsAt(RegistersOf(entries, values, floats), entries[i].param) ==
            if words == [] then Zeros(entries[i].param.dataType) else words
  {
    hide EncodeParam, RegistersOf;
    var e := entries[i];
    assert e in entries && WellFormedEntry(e);
    forall a | e.start <= a <= e.end
      ensures var words := WordsOfEntry(e, values, floats);
              ReadAt(RegistersOf(entries, values, floats), e.registerType, a) ==
              (if words == [] then 0 else words[a - e.start])
    {
      RegisterHolds(entries, values, floats, i, a);
    }
    assert |WordsOfEntry(e, values, floats)| == 0 || |WordsOfEntry(e, values, floats)| == WordsOf(e.param.dataType);
  }

  // ---------------------------------------------------------------- the round trip

  /** The number behind an encodable value is what the same words mean without enumeration or flags. */
  lemma NumberSurvives(value: DecodedValue, param: ParamSpec, floats: FloatCodec)
    requires Encodable(value, param, floats)
    ensures MetricOf(param, EncodeParam(value, param, floats), floats)
            == Metric(param.key, ToScaledValue(value, param), value)
  {
    hide AssembleRaw, WordsOfWhole, RoundTo, Scaled, RawOf, Round, BytesOfInt, WordsOfBytes, BitsOfFlags,
        FlagsOfWord, CodeOfLabel, ToWord, Trunc;
    ValueSurvives(value, param, floats);
    SameScale(param);
    match value {
      case Num(number) =>
      case Label(text) => GridIsWritten(CodeOfLabel(text, param.states.value).value, param, floats);
      case Flags(flags) => GridIsWritten(ToWord(BitsOfFlags(flags, param.bits.value)) as real, param, floats);
    }
  }

  lemma SameScale(param: ParamSpec)
    ensures forall raw :: Scaled(raw, WithoutMeaning(param)) == Scaled(raw, param)
  {
  }

  ghost predicate AllEncodable(entries: seq<PlanEntry>, values: map<string, DecodedValue>, floats: FloatCodec) {
    forall i :: 0 <= i < |entries| ==> Encodable(ValueFor(values, entries[i].param.key), entries[i].param, floats)
  }

  function ExpectedMetrics(entries: seq<PlanEntry>, values: map<string, DecodedValue>): seq<Metric> {
    seq(|entries|, i requires 0 <= i < |entries| =>
      var param := entries[i].param;
      Metric(param.key, ToScaledValue(ValueFor(values, param.key), param), ValueFor(values, param.key)))
  }

  /** Main result: for an accepted profile, values the registers can carry come back through every plan as they were. */
  lemma ValuesComeBack(profile: Profile, options: Options, values: map<string, DecodedValue>, floats: FloatCodec)
    requires Validation.Accepted(profile) && !Unbuildable(profile, options)
    requires AllEncodable(EntriesOf(profile), values, floats)
    ensures var entries := EntriesOf(profile);
            var blocks := SortBy(BuiltBlocks(profile, options), BlockLe);
            DecodeFrame(profile, FrameOf(blocks, RegistersOf(entries, values, floats)), floats)
            == ExpectedMetrics(entries, values)
  {
    hide EncodeParam, RegistersOf, MetricOf, EntriesOf, BuiltBlocks, SortBy, Encodable, DecodeFrame, FrameOf,
        WordsAt, Unbuildable;
    var entries := EntriesOf(profile);
    var registers := RegistersOf(entries, values, floats);
    EntriesAreOrdered(profile);
    PlansDecodeAlike(profile, options, registers, floats);
    forall i | 0 <= i < |entries|
      ensures MetricsAt(entries, registers, floats)[i] == ExpectedMetrics(entries, values)[i]
    {
      var param := entries[i].param;
      var value := ValueFor(values, param.key);
      RegistersHoldValue(entries, values, floats, i);
      ValueSurvives(value, param, floats);
      NumberSurvives(value, param, floats);
    }
    assert MetricsAt(entries, registers, floats) == ExpectedMetrics(entries, values);
  }

  // ---------------------------------------------------------------- when there is a plan at all

  /**
  The validator accepts a profile that cannot be read: nothing compares the width of a param with the
  block limit. With default options a plan is missing exactly for a limit of one register, no declared
  blocks, and a 32-bit param.
  */
  lemma WhenThereIsNoPlan(profile: Profile, options: Options)
    requires Validation.SchemaValid(profile) && Validation.Accepted(profile)
    requires options.maxBlockRegisters.None? && !options.ignoreDeclaredBlocks
    ensures Unbuildable(profile, options) <==>
            && profile.maxBlockRegisters == 1
            && profile.declared == []
            && exists e :: e in EntriesOf(profile) && e.words == 2
  {
    var entries := EntriesOf(profile);
    var limit := profile.maxBlockRegisters;
    hide EntriesOf, Kept, WellFormedEntries, Validation.DeclaredAccepted;
    EntriesAreOrdered(profile);
    WidthsAreOneOrTwo(entries, limit);
    if profile.declared != [] {
      DeclaredCanBeBuilt(profile.declared, entries, limit);
    }
  }

  lemma WidthsAreOneOrTwo(entries: seq<PlanEntry>, limit: int)
    requires WellFormedEntries(entries) && limit >= 1
    ensures TooWide(entries, limit) <==> limit == 1 && exists e :: e in entries && e.words == 2
  {
    forall e | e in entries ensures e.words == 1 || e.words == 2 {
      assert WellFormedEntry(e);
    }
  }

  lemma DeclaredCanBeBuilt(declared: seq<ReadBlock>, entries: seq<PlanEntry>, limit: nat)
    requires WellFormedEntries(entries) && Validation.DeclaredAccepted(limit, declared, entries)
    ensures !TooWide(entries, limit) && !Oversized(declared, limit)
    ensures !TooWide(Unclaimed(entries, Kept(declared, entries).1), limit)
  {
    hide Kept, Unclaimed, Validation.ApartBlocks;
    forall e | e in entries ensures e.words <= limit {
      var b :| b in declared && Validation.FitsBlock(e, b);
      FitsWhenNarrow(e, b);
    }
    UnclaimedIsPart(entries, Kept(declared, entries).1);
  }

  lemma FitsWhenNarrow(e: PlanEntry, b: ReadBlock)
    requires WellFormedEntry(e) && Validation.FitsBlock(e, b)
    ensures e.words <= b.registerCount
  {
  }

  lemma UnclaimedIsPart(entries: seq<PlanEntry>, taken: set<string>)
    ensures forall e :: e in Unclaimed(entries, taken) ==> e in entries
  {
    FilterMembers(entries, (e: PlanEntry) => e.param.key !in taken);
  }

  /** Such a profile exists: one 32-bit param under a limit of one register. */
  lemma AcceptedWithoutPlan()
    ensures exists profile :: Validation.SchemaValid(profile) && Validation.Accepted(profile)
              && Unbuildable(profile, Options(None, None, None, false))
  {
    hide Validation.Accepted, Validation.SchemaValid, Unbuildable;
    MeterIsAccepted();
    MeterHasOneEntry();
    WhenThereIsNoPlan(METER, Options(None, None, None, false));
  }

  const ENERGY := ParamSpec("energy", 0, Holding, Uint32, ABCD, 1.0, 0.0, 0, None, None)
  const METER := Profile(1, 0, [], [Section("meter", [ENERGY])])

  lemma MeterHasOneEntry()
    ensures EntriesOf(METER) == [EntryOf("meter", ENERGY)]
    ensures EntryOf("meter", ENERGY) in EntriesOf(METER) && EntryOf("meter", ENERGY).words == 2
  {
    var e := EntryOf("meter", ENERGY);
    var section := Section("meter", [ENERGY]);
    assert EntriesOfSection(section) == [e];
    assert EntriesOfSections([section]) == EntriesOfSections([]) + [e] == [e];
    assert SortBy([e], EntryLe) == Insert(SortBy([], EntryLe), e, EntryLe) == [e];
  }

  lemma MeterIsAccepted()
    ensures Validation.SchemaValid(METER) && Validation.Accepted(METER)
  {
    hide EntriesOf;
    MeterHasOneEntry();
    assert Validation.SchemaValidParam(ENERGY);
  }
}
