/**
The profile validator. Its overlap checks are sweeps that compare each param, and each declared block,
only with the furthest-reaching earlier one of the same register type; the contracts say the sweeps find
an issue exactly when some pair shares a register.
*/
module Validation {
  import opened Wrappers
  import opened Sequences
  import opened RegisterTypes
  import opened Profiles
  import ReadPlan

  datatype Issue =
    | DuplicateSection(sectionKey: string)
    | DuplicateParam(entry: PlanEntry, owner: string)
    | Overlap(entry: PlanEntry, previous: PlanEntry)
    | DuplicateBlock(block: ReadBlock)
    | BlockOverlap(block: ReadBlock, previousBlock: ReadBlock)
    | OversizedBlock(block: ReadBlock)
    | EmptyBlock(block: ReadBlock)
    | DoubleCovered(entry: PlanEntry, owners: seq<ReadBlock>)
    | Uncovered(entry: PlanEntry)

  /** The shape the profile schema already guarantees. */
  ghost predicate SchemaValid(profile: Profile) {
    && 1 <= profile.maxBlockRegisters <= 125
    && profile.maxGapRegisters <= 16
    && profile.sections != []
    && (forall b :: b in profile.declared ==> 1 <= b.registerCount <= 125 && b.startAddress <= 65535)
    && (forall s :: s in profile.sections ==> s.params != [] && forall p :: p in s.params ==> SchemaValidParam(p))
  }

  ghost predicate SchemaValidParam(param: ParamSpec) {
    && param.address <= 65535
    && param.precision <= 6
    && (param.bits.Some? <==> param.dataType == Bits16)
    && (param.bits.Some? ==> forall spec :: spec in param.bits.value ==> spec.bit < 16)
    && (param.states.Some? ==> param.dataType != Float32)
  }

  // ---------------------------------------------------------------- unique keys

  /** One issue for each section whose key an earlier one has. */
  ghost function RepeatedSections(sections: seq<Section>): seq<Issue> {
    if sections == [] then []
    else
      var n := |sections| - 1;
      RepeatedSections(sections[..n])
      + if exists i :: 0 <= i < n && sections[i].key == sections[n].key then [DuplicateSection(sections[n].key)] else []
  }

  ghost predicate IsFirstWith(entries: seq<PlanEntry>, i: nat, key: string) {
    i < |entries| && entries[i].param.key == key && forall j :: 0 <= j < i ==> entries[j].param.key != key
  }

  /** The section of the first param with the key. */
  ghost function FirstOwner(entries: seq<PlanEntry>, key: string): Option<string> {
    if entries == [] then None
    else
      var n := |entries| - 1;
      var before := FirstOwner(entries[..n], key);
      if before.None? && entries[n].param.key == key then Some(entries[n].sectionKey) else before
  }

  lemma {:induction false} FirstOwnerIsFirst(entries: seq<PlanEntry>, key: string)
    ensures match FirstOwner(entries, key)
            case None => forall i :: 0 <= i < |entries| ==> entries[i].param.key != key
            case Some(owner) => exists i: nat :: IsFirstWith(entries, i, key) && entries[i].sectionKey == owner
  {
    if entries != [] {
      var n := |entries| - 1;
      FirstOwnerIsFirst(entries[..n], key);
      match FirstOwner(entries[..n], key)
      case None =>
        assert entries[n].param.key == key ==> IsFirstWith(entries, n, key);
      case Some(owner) =>
        var i: nat :| IsFirstWith(entries[..n], i, key) && entries[..n][i].sectionKey == owner;
        assert IsFirstWith(entries, i, key);
    }
  }

  /** One issue for each param whose key an earlier one has, naming the section of the first of them. */
  ghost function RepeatedParams(entries: seq<PlanEntry>): seq<Issue> {
    if entries == [] then []
    else
      var n := |entries| - 1;
      var owner := FirstOwner(entries[..n], entries[n].param.key);
      RepeatedParams(entries[..n]) + if owner.Some? then [DuplicateParam(entries[n], owner.value)] else []
  }

  lemma {:induction false} NothingRepeatedIff(entries: seq<PlanEntry>)
    ensures RepeatedParams(entries) == [] <==> UniqueKeys(entries)
  {
    hide FirstOwner;
    if entries != [] {
      var n := |entries| - 1;
      NothingRepeatedIff(entries[..n]);
      FirstOwnerIsFirst(entries[..n], entries[n].param.key);
    }
  }

  method DuplicateSectionIssues(profile: Profile) returns (issues: seq<Issue>)
    ensures issues == RepeatedSections(profile.sections)
    ensures issues == [] <==>
            forall i, j :: 0 <= i < j < |profile.sections| ==> profile.sections[i].key != profile.sections[j].key
  {
    issues := [];
    var seen: set<string> := {};
    for k := 0 to |profile.sections|
      invariant issues == RepeatedSections(profile.sections[..k])
      invariant forall key :: key in seen <==> exists i :: 0 <= i < k && profile.sections[i].key == key
      invariant issues == [] <==>
                forall i, j :: 0 <= i < j < k ==> profile.sections[i].key != profile.sections[j].key
    {
      var section := profile.sections[k];
      assert profile.sections[..k + 1][..k] == profile.sections[..k];
      if section.key in seen {
        issues := issues + [DuplicateSection(section.key)];
      }
      seen := seen + {section.key};
    }
    assert profile.sections[..|profile.sections|] == profile.sections;
  }

  method DuplicateParamIssues(entries: seq<PlanEntry>) returns (issues: seq<Issue>)
    ensures issues == RepeatedParams(entries)
    ensures issues == [] <==> UniqueKeys(entries)
  {
    issues := [];
    var owner: map<string, string> := map[];
    for k := 0 to |entries|
      invariant issues == RepeatedParams(entries[..k])
      invariant forall key :: FirstOwner(entries[..k], key) == if key in owner then Some(owner[key]) else None
    {
      var entry := entries[k];
      assert entries[..k + 1][..k] == entries[..k];
      if entry.param.key in owner {
        issues := issues + [DuplicateParam(entry, owner[entry.param.key])];
        continue;
      }
      owner := owner[entry.param.key := entry.sectionKey];
    }
    assert entries[..|entries|] == entries;
    NothingRepeatedIff(entries);
  }

  // ---------------------------------------------------------------- the sweep over params

  /** `e` reaches furthest among the entries of its register type. */
  ghost predicate Furthest(e: PlanEntry, registerType: RegisterType, among: seq<PlanEntry>) {
    && e in among && e.registerType == registerType
    && forall x :: x in among && x.registerType == registerType ==> x.end <= e.end
  }

  ghost predicate SharesEarlier(entries: seq<PlanEntry>, k: nat)
    requires k < |entries|
  {
    exists i :: 0 <= i < k && Share(entries[i], entries[k])
  }

  /** Comparing with the furthest-reaching earlier entry finds an overlap iff there is one. */
  lemma FurthestDecides(entries: seq<PlanEntry>, k: nat, previous: Option<PlanEntry>)
    requires SortedBy(entries, EntryLe) && WellFormedEntries(entries) && k < |entries|
    requires match previous
             case None => forall x :: x in entries[..k] ==> x.registerType != entries[k].registerType
             case Some(p) => Furthest(p, entries[k].registerType, entries[..k])
    ensures SharesEarlier(entries, k) <==> previous.Some? && entries[k].start <= previous.value.end
    ensures previous.Some? && entries[k].start <= previous.value.end ==> Share(entries[k], previous.value)
  {
    var e := entries[k];
    forall i | 0 <= i < k
      ensures Share(entries[i], e) <==> entries[i].registerType == e.registerType && e.start <= entries[i].end
    {
      assert EntryLe(entries[i], e);
      assert WellFormedEntry(entries[i]) && WellFormedEntry(e);
    }
    if previous.Some? {
      var i :| 0 <= i < k && entries[i] == previous.value;
      assert e.start <= previous.value.end ==> Share(entries[i], e);
    }
    forall i | 0 <= i < k && Share(entries[i], e) ensures previous.Some? && e.start <= previous.value.end {
      assert entries[i] in entries[..k];
    }
  }

  ghost predicate Tracks(previousByType: map<RegisterType, PlanEntry>, seen: seq<PlanEntry>) {
    && (forall t :: t in previousByType ==> Furthest(previousByType[t], t, seen))
    && (forall x :: x in seen ==> x.registerType in previousByType)
  }

  function PreviousOf(previousByType: map<RegisterType, PlanEntry>, t: RegisterType): Option<PlanEntry> {
    if t in previousByType then Some(previousByType[t]) else None
  }

  lemma TrackStep(previousByType: map<RegisterType, PlanEntry>, seen: seq<PlanEntry>, e: PlanEntry)
    requires Tracks(previousByType, seen)
    ensures var previous := PreviousOf(previousByType, e.registerType);
            Tracks(if previous.None? || e.end > previous.value.end
                   then previousByType[e.registerType := e] else previousByType,
                   seen + [e])
  {
  }

  /** The entries, in order, that share a register with an earlier one. */
  ghost function Clashing(entries: seq<PlanEntry>, k: nat): seq<PlanEntry>
    requires k <= |entries|
  {
    if k == 0 then []
    else Clashing(entries, k - 1) + if SharesEarlier(entries, k - 1) then [entries[k - 1]] else []
  }

  lemma {:induction false} NothingClashes(entries: seq<PlanEntry>, k: nat)
    requires k <= |entries|
    ensures Clashing(entries, k) == [] <==> DisjointEntries(entries[..k])
  {
    hide DisjointEntries, SharesEarlier;
    if k > 0 {
      NothingClashes(entries, k - 1);
      DisjointOfOneMore(entries, k - 1);
    } else {
      NoEntriesShare(entries);
    }
  }

  lemma NoEntriesShare(entries: seq<PlanEntry>)
    ensures DisjointEntries(entries[..0])
  {
  }

  lemma DisjointOfOneMore(entries: seq<PlanEntry>, k: nat)
    requires k < |entries|
    ensures DisjointEntries(entries[..k + 1]) <==> DisjointEntries(entries[..k]) && !SharesEarlier(entries, k)
  {
    hide Share;
    var front, all := entries[..k], entries[..k + 1];
    assert forall i :: 0 <= i < k ==> front[i] == all[i] == entries[i];
    assert all[k] == entries[k];
    if DisjointEntries(all) {
      forall i, j | 0 <= i < j < k ensures !Share(front[i], front[j]) {
        assert !Share(all[i], all[j]);
      }
      forall i | 0 <= i < k ensures !Share(entries[i], entries[k]) {
        assert !Share(all[i], all[k]);
      }
    }
    if DisjointEntries(front) && !SharesEarlier(entries, k) {
      forall i, j | 0 <= i < j < |all| ensures !Share(all[i], all[j]) {
        if j < k {
          assert !Share(front[i], front[j]);
        } else {
          assert !Share(entries[i], entries[k]);
        }
      }
    }
  }

  /** The issues name exactly the clashing entries, each with an entry it really shares a register with. */
  ghost predicate Reports(issues: seq<Issue>, clashing: seq<PlanEntry>) {
    && |issues| == |clashing|
    && forall i :: 0 <= i < |issues| ==>
         issues[i].Overlap? && issues[i].entry == clashing[i] && Share(issues[i].entry, issues[i].previous)
  }

  lemma ReportStep(issues: seq<Issue>, entries: seq<PlanEntry>, k: nat, previous: Option<PlanEntry>)
    requires k < |entries| && Reports(issues, Clashing(entries, k))
    requires SharesEarlier(entries, k) <==> previous.Some? && entries[k].start <= previous.value.end
    requires SharesEarlier(entries, k) ==> Share(entries[k], previous.value)
    ensures Reports(
              if previous.Some? && entries[k].start <= previous.value.end
              then issues + [Overlap(entries[k], previous.value)] else issues,
              Clashing(entries, k + 1))
  {
    if !SharesEarlier(entries, k) {
      assert Clashing(entries, k + 1) == Clashing(entries, k);
    }
  }

  method OverlapIssues(entries: seq<PlanEntry>) returns (issues: seq<Issue>)
    requires SortedBy(entries, EntryLe) && WellFormedEntries(entries)
    ensures Reports(issues, Clashing(entries, |entries|))
    ensures issues == [] <==> DisjointEntries(entries)
  {
    issues := [];
    var previousByType: map<RegisterType, PlanEntry> := map[];
    for k := 0 to |entries|
      invariant Tracks(previousByType, entries[..k])
      invariant Reports(issues, Clashing(entries, k))
    {
      var entry := entries[k];
      var previous := PreviousOf(previousByType, entry.registerType);
      FurthestDecides(entries, k, previous);
      TrackStep(previousByType, entries[..k], entry);
      ReportStep(issues, entries, k, previous);
      assert entries[..k + 1] == entries[..k] + [entry];

      if previous.Some? && entry.start <= previous.value.end {
        issues := issues + [Overlap(entry, previous.value)];
      }
      if previous.None? || entry.end > previous.value.end {
        previousByType := previousByType[entry.registerType := entry];
      }
    }
    NothingClashes(entries, |entries|);
    assert entries[..|entries|] == entries;
  }

  // ---------------------------------------------------------------- the sweep over declared blocks

  function BlockEnd(block: ReadBlock): int {
    block.startAddress + block.registerCount - 1
  }

  ghost predicate BlocksShare(a: ReadBlock, b: ReadBlock) {
    a.registerType == b.registerType && a.startAddress <= BlockEnd(b) && b.startAddress <= BlockEnd(a)
  }

  ghost predicate ApartBlocks(blocks: seq<ReadBlock>) {
    forall i, j :: 0 <= i < j < |blocks| ==> blocks[i].id != blocks[j].id && !BlocksShare(blocks[i], blocks[j])
  }

  predicate BlockBefore(a: ReadBlock, b: ReadBlock) {
    Rank(a.registerType) < Rank(b.registerType)
    || (a.registerType == b.registerType && a.startAddress <= b.startAddress)
  }

  ghost predicate FurthestBlock(b: ReadBlock, registerType: RegisterType, among: seq<ReadBlock>) {
    && b in among && b.registerType == registerType
    && forall x :: x in among && x.registerType == registerType ==> BlockEnd(x) <= BlockEnd(b)
  }

  ghost predicate BlockClashes(blocks: seq<ReadBlock>, k: nat)
    requires k < |blocks|
  {
    exists i :: 0 <= i < k && (blocks[i].id == blocks[k].id || BlocksShare(blocks[i], blocks[k]))
  }

  ghost predicate SharesEarlierBlock(blocks: seq<ReadBlock>, k: nat)
    requires k < |blocks|
  {
    exists i :: 0 <= i < k && BlocksShare(blocks[i], blocks[k])
  }

  ghost predicate TracksBlocks(previousByType: map<RegisterType, ReadBlock>, seen: seq<ReadBlock>) {
    && (forall t :: t in previousByType ==> FurthestBlock(previousByType[t], t, seen))
    && (forall x :: x in seen ==> x.registerType in previousByType)
  }

  function PreviousBlockOf(previousByType: map<RegisterType, ReadBlock>, t: RegisterType): Option<ReadBlock> {
    if t in previousByType then Some(previousByType[t]) else None
  }

  lemma TrackBlockStep(previousByType: map<RegisterType, ReadBlock>, seen: seq<ReadBlock>, b: ReadBlock)
    requires TracksBlocks(previousByType, seen)
    ensures var previous := PreviousBlockOf(previousByType, b.registerType);
            TracksBlocks(if previous.None? || BlockEnd(b) > BlockEnd(previous.value)
                         then previousByType[b.registerType := b] else previousByType,
                         seen + [b])
  {
  }

  lemma FurthestBlockDecides(blocks: seq<ReadBlock>, k: nat, previous: Option<ReadBlock>)
    requires SortedBy(blocks, BlockBefore) && k < |blocks|
    requires forall b :: b in blocks ==> b.registerCount >= 1
    requires match previous
             case None => forall x :: x in blocks[..k] ==> x.registerType != blocks[k].registerType
             case Some(p) => FurthestBlock(p, blocks[k].registerType, blocks[..k])
    ensures SharesEarlierBlock(blocks, k) <==>
            previous.Some? && blocks[k].startAddress <= BlockEnd(previous.value)
  {
    var b := blocks[k];
    forall i | 0 <= i < k
      ensures BlocksShare(blocks[i], b) <==>
              blocks[i].registerType == b.registerType && b.startAddress <= BlockEnd(blocks[i])
    {
      assert BlockBefore(blocks[i], b) && blocks[i] in blocks && b in blocks;
    }
    if previous.Some? {
      var i :| 0 <= i < k && blocks[i] == previous.value;
      assert b.startAddress <= BlockEnd(previous.value) ==> BlocksShare(blocks[i], b);
    }
    forall i | 0 <= i < k && BlocksShare(blocks[i], b)
      ensures previous.Some? && b.startAddress <= BlockEnd(previous.value)
    {
      assert blocks[i] in blocks[..k];
    }
  }

  /** What the block sweep carries along: ids seen, the furthest block of each type, the issues found. */
  datatype BlockSweep = BlockSweep(ids: set<string>, previousByType: map<RegisterType, ReadBlock>, issues: seq<Issue>)

  function SweepStep(sweep: BlockSweep, block: ReadBlock): BlockSweep {
    var previous := PreviousBlockOf(sweep.previousByType, block.registerType);
    BlockSweep(
      sweep.ids + {block.id},
      if previous.None? || BlockEnd(block) > BlockEnd(previous.value)
      then sweep.previousByType[block.registerType := block] else sweep.previousByType,
      sweep.issues
        + (if block.id in sweep.ids then [DuplicateBlock(block)] else [])
        + (if previous.Some? && block.startAddress <= BlockEnd(previous.value)
           then [BlockOverlap(block, previous.value)] else []))
  }

  function Swept(blocks: seq<ReadBlock>): BlockSweep {
    if blocks == [] then BlockSweep({}, map[], [])
    else SweepStep(Swept(blocks[..|blocks| - 1]), blocks[|blocks| - 1])
  }

  lemma NothingSwept()
    ensures Swept([]) == BlockSweep({}, map[], [])
  {
  }

  lemma SweptOneMore(blocks: seq<ReadBlock>, k: nat)
    requires k < |blocks|
    ensures Swept(blocks[..k + 1]) == SweepStep(Swept(blocks[..k]), blocks[k])
  {
    assert blocks[..k + 1][..k] == blocks[..k];
  }

  lemma {:induction false} SweepTracks(blocks: seq<ReadBlock>)
    ensures SeenIds(Swept(blocks).ids, blocks)
    ensures TracksBlocks(Swept(blocks).previousByType, blocks)
  {
    if blocks != [] {
      var front, block := blocks[..|blocks| - 1], blocks[|blocks| - 1];
      SweepTracks(front);
      TrackBlockStep(Swept(front).previousByType, front, block);
      assert blocks == front + [block];
    }
  }

  lemma {:induction false} SweepFindsClashes(blocks: seq<ReadBlock>, k: nat)
    requires SortedBy(blocks, BlockBefore) && k <= |blocks|
    requires forall b :: b in blocks ==> b.registerCount >= 1
    ensures Swept(blocks[..k]).issues == [] <==> NoBlockClashes(blocks, k)
  {
    hide SortedBy, Swept, SweepStep, BlockClashes;
    if k == 0 {
      NothingSwept();
      assert blocks[..0] == [];
    } else {
      SweepFindsClashes(blocks, k - 1);
      SweptOneMore(blocks, k - 1);
      SweepDecides(blocks, k - 1);
    }
  }

  lemma SweepDecides(blocks: seq<ReadBlock>, k: nat)
    requires SortedBy(blocks, BlockBefore) && k < |blocks|
    requires forall b :: b in blocks ==> b.registerCount >= 1
    ensures var sweep := Swept(blocks[..k]);
            SweepStep(sweep, blocks[k]).issues == [] <==> sweep.issues == [] && !BlockClashes(blocks, k)
  {
    var sweep := Swept(blocks[..k]);
    SweepTracks(blocks[..k]);
    BlockClashStep(blocks, k, sweep.ids);
    FurthestBlockDecides(blocks, k, PreviousBlockOf(sweep.previousByType, blocks[k].registerType));
  }

  method BlockIssues(blocks: seq<ReadBlock>) returns (issues: seq<Issue>)
    requires forall b :: b in blocks ==> b.registerCount >= 1
    ensures issues == [] <==> ApartBlocks(blocks)
  {
    hide Swept, ApartBlocks, NoBlockClashes;
    issues := [];
    var seenIds: set<string> := {};
    var previousByType: map<RegisterType, ReadBlock> := map[];
    NothingSwept();
    var sorted := SortBy(blocks, BlockBefore);
    for k := 0 to |sorted|
      invariant BlockSweep(seenIds, previousByType, issues) == Swept(sorted[..k])
    {
      var block := sorted[k];
      SweptOneMore(sorted, k);
      if block.id in seenIds {
        issues := issues + [DuplicateBlock(block)];
      }
      seenIds := seenIds + {block.id};
      var previous := PreviousBlockOf(previousByType, block.registerType);
      if previous.Some? && block.startAddress <= BlockEnd(previous.value) {
        issues := issues + [BlockOverlap(block, previous.value)];
      }
      if previous.None? || BlockEnd(block) > BlockEnd(previous.value) {
        previousByType := previousByType[block.registerType := block];
      }
    }
    assert sorted[..|sorted|] == sorted;
    SortedBlocks(blocks);
    SweepFindsClashes(sorted, |sorted|);
    ApartIsSymmetric(blocks, sorted);
    ApartWhenNothingClashes(sorted);
  }

  lemma SortedBlocks(blocks: seq<ReadBlock>)
    requires forall b :: b in blocks ==> b.registerCount >= 1
    ensures var sorted := SortBy(blocks, BlockBefore);
            && SortedBy(sorted, BlockBefore) && multiset(sorted) == multiset(blocks)
            && forall b :: b in sorted ==> b.registerCount >= 1
  {
    SortSorts(blocks, BlockBefore);
  }

  ghost predicate SeenIds(ids: set<string>, seen: seq<ReadBlock>) {
    ids == set b | b in seen :: b.id
  }

  ghost predicate NoBlockClashes(blocks: seq<ReadBlock>, k: nat)
    requires k <= |blocks|
  {
    forall i :: 0 <= i < k ==> !BlockClashes(blocks, i)
  }

  lemma BlockClashStep(blocks: seq<ReadBlock>, k: nat, ids: set<string>)
    requires k < |blocks| && SeenIds(ids, blocks[..k])
    ensures NoBlockClashes(blocks, k + 1) <==> NoBlockClashes(blocks, k) && !BlockClashes(blocks, k)
    ensures BlockClashes(blocks, k) <==>
            blocks[k].id in ids || SharesEarlierBlock(blocks, k)
    ensures SeenIds(ids + {blocks[k].id}, blocks[..k] + [blocks[k]])
  {
    if blocks[k].id in ids {
      var b :| b in blocks[..k] && b.id == blocks[k].id;
    }
    forall i | 0 <= i < k && blocks[i].id == blocks[k].id ensures blocks[k].id in ids {
      assert blocks[i] in blocks[..k];
    }
  }

  lemma ApartWhenNothingClashes(blocks: seq<ReadBlock>)
    ensures ApartBlocks(blocks) <==> NoBlockClashes(blocks, |blocks|)
  {
    if NoBlockClashes(blocks, |blocks|) {
      forall i, j | 0 <= i < j < |blocks| ensures blocks[i].id != blocks[j].id && !BlocksShare(blocks[i], blocks[j]) {
        assert !BlockClashes(blocks, j);
      }
    }
  }

  /** Blocks are pairwise apart in one order iff they are in any other. */
  lemma ApartIsSymmetric(a: seq<ReadBlock>, b: seq<ReadBlock>)
    requires multiset(a) == multiset(b)
    ensures ApartBlocks(a) <==> ApartBlocks(b)
  {
    if ApartBlocks(a) {
      ApartSurvives(a, b);
    }
    if ApartBlocks(b) {
      ApartSurvives(b, a);
    }
  }

  lemma ApartSurvives(a: seq<ReadBlock>, b: seq<ReadBlock>)
    requires multiset(a) == multiset(b) && ApartBlocks(a)
    ensures ApartBlocks(b)
  {
    assert Distinct(a);
    DistinctSurvivesPermutation(a, b);
    SameElements(a, b);
    forall i, j | 0 <= i < j < |b| ensures b[i].id != b[j].id && !BlocksShare(b[i], b[j]) {
      assert b[i] in b && b[j] in b && b[i] != b[j];
      var x :| 0 <= x < |a| && a[x] == b[i];
      var y :| 0 <= y < |a| && a[y] == b[j];
      assert x < y || y < x;
    }
  }

  // ---------------------------------------------------------------- blocks against params

  predicate FitsBlock(e: PlanEntry, block: ReadBlock) {
    ReadPlan.EntryFits(e, block.registerType, block.startAddress, block.registerCount)
  }

  /** The block and the param have a register in common; the param need not fit. */
  predicate BlockTouches(block: ReadBlock, e: PlanEntry) {
    e.registerType == block.registerType && e.start <= BlockEnd(block) && e.end >= block.startAddress
  }

  ghost predicate InBlock(block: ReadBlock, registerType: RegisterType, address: int) {
    registerType == block.registerType && block.startAddress <= address < block.startAddress + block.registerCount
  }

  ghost predicate InEntry(e: PlanEntry, registerType: RegisterType, address: int) {
    registerType == e.registerType && e.start <= address <= e.end
  }

  /** The comparisons of ends mean what they should of registers: in common, or all of them. */
  lemma ComparisonsAreAboutRegisters(block: ReadBlock, other: ReadBlock, e: PlanEntry)
    requires block.registerCount >= 1 && other.registerCount >= 1 && e.start <= e.end
    ensures BlockTouches(block, e) <==> exists t, a :: InBlock(block, t, a) && InEntry(e, t, a)
    ensures FitsBlock(e, block) <==> forall t, a :: InEntry(e, t, a) ==> InBlock(block, t, a)
    ensures BlocksShare(block, other) <==> exists t, a :: InBlock(block, t, a) && InBlock(other, t, a)
  {
    assert InEntry(e, e.registerType, e.start) && InEntry(e, e.registerType, e.end);
    var start := if e.start < block.startAddress then block.startAddress else e.start;
    assert BlockTouches(block, e) ==> InBlock(block, e.registerType, start) && InEntry(e, e.registerType, start);
    var later := if block.startAddress < other.startAddress then other.startAddress else block.startAddress;
    assert BlocksShare(block, other) ==>
        InBlock(block, block.registerType, later) && InBlock(other, block.registerType, later);
  }

  function Owners(e: PlanEntry, blocks: seq<ReadBlock>): seq<ReadBlock> {
    Filter(blocks, (block: ReadBlock) => FitsBlock(e, block))
  }

  function Report<T>(found: seq<T>, issue: T -> Issue): (issues: seq<Issue>)
    ensures issues == [] <==> found == []
  {
    seq(|found|, i requires 0 <= i < |found| => issue(found[i]))
  }

  function OversizedBlockIssues(maxBlockRegisters: nat, blocks: seq<ReadBlock>): seq<Issue> {
    Report(Filter(blocks, (b: ReadBlock) => b.registerCount > maxBlockRegisters), b => OversizedBlock(b))
  }

  function EmptyBlockIssues(entries: seq<PlanEntry>, blocks: seq<ReadBlock>): seq<Issue> {
    Report(Filter(blocks, (b: ReadBlock) => !exists e :: e in entries && BlockTouches(b, e)), b => EmptyBlock(b))
  }

  function DoubleCoveredIssues(entries: seq<PlanEntry>, blocks: seq<ReadBlock>): seq<Issue> {
    Report(Filter(entries, (e: PlanEntry) => |Owners(e, blocks)| >= 2), e => DoubleCovered(e, Owners(e, blocks)))
  }

  function UncoveredIssues(entries: seq<PlanEntry>, blocks: seq<ReadBlock>): seq<Issue> {
    Report(Filter(entries, (e: PlanEntry) => !exists b :: b in blocks && FitsBlock(e, b)), e => Uncovered(e))
  }

  lemma FilterEmpty<T>(s: seq<T>, keep: T -> bool)
    ensures Filter(s, keep) == [] <==> forall x :: x in s ==> !keep(x)
  {
    FilterMembers(s, keep);
    if forall x :: x in s ==> !keep(x) {
      FilterNone(s, keep);
    }
  }

  lemma {:induction false} OwnersAreFew(e: PlanEntry, blocks: seq<ReadBlock>)
    requires ApartBlocks(blocks) && e.start <= e.end
    ensures |Owners(e, blocks)| <= 1
  {
    if blocks != [] {
      var n := |blocks| - 1;
      OwnersAreFew(e, blocks[..n]);
      if FitsBlock(e, blocks[n]) {
        forall i | 0 <= i < n ensures !FitsBlock(e, blocks[i]) {
          assert !BlocksShare(blocks[i], blocks[n]);
        }
        FilterNone(blocks[..n], (block: ReadBlock) => FitsBlock(e, block));
      }
    }
  }

  // ---------------------------------------------------------------- the whole check

  /** What an accepted profile promises the planner, stated pair by pair. */
  ghost predicate Accepted(profile: Profile) {
    var entries := EntriesOf(profile);
    && (forall i, j :: 0 <= i < j < |profile.sections| ==> profile.sections[i].key != profile.sections[j].key)
    && UniqueKeys(entries)
    && DisjointEntries(entries)
    && (profile.declared != [] ==> DeclaredAccepted(profile.maxBlockRegisters, profile.declared, entries))
  }

  ghost predicate DeclaredAccepted(maxBlockRegisters: nat, blocks: seq<ReadBlock>, entries: seq<PlanEntry>) {
    && ApartBlocks(blocks)
    && (forall b :: b in blocks ==> b.registerCount <= maxBlockRegisters)
    && (forall b :: b in blocks ==> exists e :: e in entries && BlockTouches(b, e))
    && (forall e :: e in entries ==> exists b :: b in blocks && FitsBlock(e, b))
  }

  method DeclaredIssues(profile: Profile, entries: seq<PlanEntry>) returns (issues: seq<Issue>)
    requires forall b :: b in profile.declared ==> b.registerCount >= 1
    requires WellFormedEntries(entries)
    ensures issues == [] <==> DeclaredAccepted(profile.maxBlockRegisters, profile.declared, entries)
  {
    var blocks := profile.declared;
    issues := BlockIssues(blocks);
    issues := issues
      + OversizedBlockIssues(profile.maxBlockRegisters, blocks)
      + EmptyBlockIssues(entries, blocks)
      + DoubleCoveredIssues(entries, blocks)
      + UncoveredIssues(entries, blocks);
    FilterEmpty(blocks, (b: ReadBlock) => b.registerCount > profile.maxBlockRegisters);
    FilterEmpty(blocks, (b: ReadBlock) => !exists e :: e in entries && BlockTouches(b, e));
    FilterEmpty(entries, (e: PlanEntry) => |Owners(e, blocks)| >= 2);
    FilterEmpty(entries, (e: PlanEntry) => !exists b :: b in blocks && FitsBlock(e, b));
    if ApartBlocks(blocks) {
      forall e | e in entries ensures |Owners(e, blocks)| < 2 {
        assert WellFormedEntry(e);
        OwnersAreFew(e, blocks);
      }
    }
  }

  /** The validator reports nothing exactly when the profile is accepted. */
  method SemanticIssues(profile: Profile) returns (issues: seq<Issue>)
    requires SchemaValid(profile)
    ensures issues == [] <==> Accepted(profile)
  {
    var entries := ListPlanEntries(profile);
    EntriesAreOrdered(profile);
    var sections := DuplicateSectionIssues(profile);
    var params := DuplicateParamIssues(entries);
    var overlaps := OverlapIssues(entries);
    issues := sections + params + overlaps;
    if |profile.declared| > 0 {
      var declared := DeclaredIssues(profile, entries);
      issues := issues + declared;
    }
  }
}
