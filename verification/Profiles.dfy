/** Device profiles: what the registers of a device mean, and the flat list the other components work on. */
module Profiles {
  import opened Wrappers
  import opened Sequences
  import opened RegisterTypes

  datatype DataType = Int16 | Uint16 | Int32 | Uint32 | Float32 | Bits16

  datatype ByteOrder = ABCD | DCBA | BADC | CDAB

  datatype BitSpec = BitSpec(bit: nat, key: string, invert: bool)

  /**
  One `code: label` pair of an enumeration. The code is a text in the profile; what matters of it is the
  number it reads as (None when it is not a finite number) and whether that number prints back as the code.
  */
  datatype EnumEntry = EnumEntry(code: Option<real>, canonical: bool, text: string)

  datatype ParamSpec = ParamSpec(
    key: string,
    address: nat,
    registerType: RegisterType,
    dataType: DataType,
    byteOrder: ByteOrder,
    scale: real,
    offset: real,
    precision: nat,
    states: Option<seq<EnumEntry>>,
    bits: Option<seq<BitSpec>>)

  datatype Section = Section(key: string, params: seq<ParamSpec>)

  datatype ReadBlock = ReadBlock(id: string, registerType: RegisterType, startAddress: nat, registerCount: nat)

  datatype Profile = Profile(
    maxBlockRegisters: nat,
    maxGapRegisters: nat,
    declared: seq<ReadBlock>,
    sections: seq<Section>)

  datatype PlanEntry = PlanEntry(
    sectionKey: string,
    param: ParamSpec,
    registerType: RegisterType,
    start: nat,
    end: nat,
    words: nat)

  function WordsOf(dataType: DataType): (words: nat)
    ensures words == 1 || words == 2
  {
    match dataType
    case Int16 | Uint16 | Bits16 => 1
    case Int32 | Uint32 | Float32 => 2
  }

  function EntryOf(sectionKey: string, param: ParamSpec): PlanEntry {
    var words := WordsOf(param.dataType);
    PlanEntry(sectionKey, param, param.registerType, param.address, param.address + words - 1, words)
  }

  function EntriesOfSection(section: Section): seq<PlanEntry> {
    seq(|section.params|, i requires 0 <= i < |section.params| => EntryOf(section.key, section.params[i]))
  }

  function EntriesOfSections(sections: seq<Section>): seq<PlanEntry> {
    if sections == [] then []
    else EntriesOfSections(sections[..|sections| - 1]) + EntriesOfSection(sections[|sections| - 1])
  }

  function Rank(registerType: RegisterType): nat {
    match registerType
    case Holding => 0
    case Input => 1
  }

  predicate EntryLe(a: PlanEntry, b: PlanEntry) {
    Rank(a.registerType) < Rank(b.registerType)
    || (a.registerType == b.registerType
        && (a.start < b.start || (a.start == b.start && TextLe(a.param.key, b.param.key))))
  }

  /** The profile's params with their register spans, by register type, then address, then key. */
  function EntriesOf(profile: Profile): seq<PlanEntry> {
    SortBy(EntriesOfSections(profile.sections), EntryLe)
  }

  method ListPlanEntries(profile: Profile) returns (entries: seq<PlanEntry>)
    ensures entries == EntriesOf(profile)
  {
    var found: seq<PlanEntry> := [];
    for i := 0 to |profile.sections|
      invariant found == EntriesOfSections(profile.sections[..i])
    {
      var section := profile.sections[i];
      for j := 0 to |section.params|
        invariant found == EntriesOfSections(profile.sections[..i]) + EntriesOfSection(section)[..j]
      {
        found := found + [EntryOf(section.key, section.params[j])];
      }
      assert profile.sections[..i + 1][..i] == profile.sections[..i];
    }
    assert profile.sections[..|profile.sections|] == profile.sections;
    entries := SortBy(found, EntryLe);
  }

  // ---------------------------------------------------------------- what the list satisfies

  ghost predicate WellFormedEntry(e: PlanEntry) {
    e == EntryOf(e.sectionKey, e.param)
  }

  ghost predicate WellFormedEntries(entries: seq<PlanEntry>) {
    forall e :: e in entries ==> WellFormedEntry(e)
  }

  /** Two params read a common register. */
  ghost predicate Share(a: PlanEntry, b: PlanEntry) {
    a.registerType == b.registerType && a.start <= b.end && b.start <= a.end
  }

  ghost predicate DisjointEntries(entries: seq<PlanEntry>) {
    forall i, j :: 0 <= i < j < |entries| ==> !Share(entries[i], entries[j])
  }

  ghost predicate UniqueKeys(entries: seq<PlanEntry>) {
    forall i, j :: 0 <= i < j < |entries| ==> entries[i].param.key != entries[j].param.key
  }

  lemma EntryLeIsTotalPreorder()
    ensures TotalPreorder(EntryLe)
  {
    TextLeIsTotalOrder();
  }

  lemma {:induction false} SectionEntriesAreWellFormed(sections: seq<Section>)
    ensures WellFormedEntries(EntriesOfSections(sections))
  {
    if sections != [] {
      SectionEntriesAreWellFormed(sections[..|sections| - 1]);
    }
  }

  /** The flat list holds exactly the section entries, in order. */
  lemma EntriesAreOrdered(profile: Profile)
    ensures SortedBy(EntriesOf(profile), EntryLe)
    ensures WellFormedEntries(EntriesOf(profile))
    ensures multiset(EntriesOf(profile)) == multiset(EntriesOfSections(profile.sections))
  {
    EntryLeIsTotalPreorder();
    SortSorts(EntriesOfSections(profile.sections), EntryLe);
    SectionEntriesAreWellFormed(profile.sections);
  }
}
