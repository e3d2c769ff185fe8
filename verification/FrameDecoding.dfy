/**
Registers of a simulated device, the blocks a plan reads from them, and the frame decoder that turns the
blocks back into named values.
*/
module FrameDecoding {
  import opened Wrappers
  import opened RegisterTypes
  import opened Profiles
  import opened Codec
  import opened ReadPlan

  datatype Registers = Registers(holding: map<int, int>, input: map<int, int>)

  datatype RawBlock = RawBlock(registerType: RegisterType, startAddress: nat, words: seq<int>)

  /** One decoded param: the number that goes into the table, and its meaning. */
  datatype Metric = Metric(key: string, value: Option<real>, decoded: DecodedValue)

  function TableOf(registers: Registers, registerType: RegisterType): map<int, int> {
    match registerType
    case Holding => registers.holding
    case Input => registers.input
  }

  /** A register nobody wrote reads as zero. */
  function ReadAt(registers: Registers, registerType: RegisterType, address: int): int {
    var table := TableOf(registers, registerType);
    if address in table then table[address] else 0
  }

  // ---------------------------------------------------------------- values into registers

  function WithWords(table: map<int, int>, address: int, words: seq<int>): map<int, int> {
    if words == [] then table
    else
      var n := |words| - 1;
      WithWords(table, address, words[..n])[address + n := words[n]]
  }

  function WithEntry(registers: Registers, e: PlanEntry, words: seq<int>): Registers {
    match e.registerType
    case Holding => registers.(holding := WithWords(registers.holding, e.param.address, words))
    case Input => registers.(input := WithWords(registers.input, e.param.address, words))
  }

  function ValueFor(values: map<string, DecodedValue>, key: string): DecodedValue {
    if key in values then values[key] else Null
  }

  function WordsOfEntry(e: PlanEntry, values: map<string, DecodedValue>, floats: FloatCodec): seq<int> {
    EncodeParam(ValueFor(values, e.param.key), e.param, floats)
  }

  function RegistersOf(entries: seq<PlanEntry>, values: map<string, DecodedValue>, floats: FloatCodec): Registers {
    if entries == [] then Registers(map[], map[])
    else
      var n := |entries| - 1;
      WithEntry(RegistersOf(entries[..n], values, floats), entries[n], WordsOfEntry(entries[n], values, floats))
  }

  lemma NothingWritten(values: map<string, DecodedValue>, floats: FloatCodec)
    ensures RegistersOf([], values, floats) == Registers(map[], map[])
  {
  }

  lemma OneMoreWritten(entries: seq<PlanEntry>, i: nat, values: map<string, DecodedValue>, floats: FloatCodec)
    requires i < |entries|
    ensures RegistersOf(entries[..i + 1], values, floats) ==
            WithEntry(RegistersOf(entries[..i], values, floats), entries[i], WordsOfEntry(entries[i], values, floats))
  {
    assert entries[..i + 1][..i] == entries[..i];
  }

  method EncodeSimulationRegisters(profile: Profile, values: map<string, DecodedValue>, floats: FloatCodec)
    returns (registers: Registers)
    ensures registers == RegistersOf(EntriesOf(profile), values, floats)
  {
    hide RegistersOf, WordsOfEntry;
    var holding: map<int, int> := map[];
    var input: map<int, int> := map[];
    NothingWritten(values, floats);
    var entries := ListPlanEntries(profile);
    for i := 0 to |entries|
      invariant Registers(holding, input) == RegistersOf(entries[..i], values, floats)
    {
      var entry := entries[i];
      OneMoreWritten(entries, i, values, floats);
      var words := WordsOfEntry(entry, values, floats);
      var target := if entry.registerType == Holding then holding else input;
      ghost var before := target;
      for offset := 0 to |words|
        invariant target == WithWords(before, entry.param.address, words[..offset])
      {
        assert words[..offset + 1][..offset] == words[..offset];
        target := target[entry.param.address + offset := words[offset]];
      }
      assert words[..|words|] == words;
      if entry.registerType == Holding {
        holding := target;
      } else {
        input := target;
      }
    }
    assert entries[..|entries|] == entries;
    registers := Registers(holding, input);
  }

  // ---------------------------------------------------------------- registers into blocks

  function BlockWords(registers: Registers, registerType: RegisterType, startAddress: int, count: int): seq<int> {
    if count <= 0 then []
    else seq(count, k requires 0 <= k < count => ReadAt(registers, registerType, startAddress + k))
  }

  method ReadSimulatedBlock(registers: Registers, registerType: RegisterType, startAddress: int, registerCount: int)
    returns (words: seq<int>)
    ensures words == BlockWords(registers, registerType, startAddress, registerCount)
  {
    words := [];
    var offset := 0;
    while offset < registerCount
      invariant 0 <= offset && (offset <= registerCount || offset == 0)
      invariant words == BlockWords(registers, registerType, startAddress, offset)
    {
      words := words + [ReadAt(registers, registerType, startAddress + offset)];
      offset := offset + 1;
    }
  }

  /** The frame a device answers to the requests of a plan. */
  function FrameOf(blocks: seq<PlanBlock>, registers: Registers): seq<RawBlock> {
    seq(|blocks|, i requires 0 <= i < |blocks| =>
      RawBlock(blocks[i].registerType, blocks[i].startAddress,
               BlockWords(registers, blocks[i].registerType, blocks[i].startAddress, blocks[i].registerCount)))
  }

  // ---------------------------------------------------------------- blocks into values

  predicate LiesIn(param: ParamSpec, block: RawBlock) {
    && block.registerType == param.registerType
    && block.startAddress <= param.address
    && param.address - block.startAddress + WordsOf(param.dataType) <= |block.words|
  }

  /** The param's words from the first block that holds it whole. */
  function WordsFor(blocks: seq<RawBlock>, param: ParamSpec): Option<seq<int>> {
    if blocks == [] then None
    else if !LiesIn(param, blocks[0]) then WordsFor(blocks[1..], param)
    else
      var offset := param.address - blocks[0].startAddress;
      Some(blocks[0].words[offset..offset + WordsOf(param.dataType)])
  }

  function WithoutMeaning(param: ParamSpec): ParamSpec {
    param.(states := None, bits := None)
  }

  function MetricOf(param: ParamSpec, words: seq<int>, floats: FloatCodec): Metric {
    var decoded := DecodeParam(words, param, floats);
    var numeric := if param.states.None? && param.bits.None? then decoded
                   else DecodeParam(words, WithoutMeaning(param), floats);
    Metric(param.key, if numeric.Num? then Some(numeric.number) else None, decoded)
  }

  function MetricsOf(entries: seq<PlanEntry>, blocks: seq<RawBlock>, floats: FloatCodec): seq<Metric> {
    if entries == [] then []
    else
      var words := WordsFor(blocks, entries[0].param);
      (if words.None? then [] else [MetricOf(entries[0].param, words.value, floats)])
        + MetricsOf(entries[1..], blocks, floats)
  }

  function DecodeFrame(profile: Profile, blocks: seq<RawBlock>, floats: FloatCodec): seq<Metric> {
    MetricsOf(EntriesOf(profile), blocks, floats)
  }
}
