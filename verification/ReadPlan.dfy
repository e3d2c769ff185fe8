/**
The read planner: a device profile becomes the list of Modbus requests of one polling cycle. Params are
glued greedily into blocks, asked one by one, or put into blocks declared by hand.
*/
module ReadPlan {
  import opened Wrappers
  import opened Sequences
  import opened RegisterTypes
  import opened Profiles
  import opened Arithmetic

  datatype PlanMode = Merged | Naive

  datatype Source = FromDeclared | FromMerge | FromNaive

  datatype PlanBlock = PlanBlock(
    id: string,
    registerType: RegisterType,
    startAddress: nat,
    registerCount: int,
    paramKeys: seq<string>,
    source: Source)

  datatype Options = Options(
    mode: Option<PlanMode>,
    maxBlockRegisters: Option<int>,
    maxGapRegisters: Option<int>,
    ignoreDeclaredBlocks: bool)

  datatype Plan = Plan(
    mode: PlanMode,
    blocks: seq<PlanBlock>,
    requestCount: nat,
    registerCount: int,
    wastedRegisters: nat)

  datatype BlockDraft = BlockDraft(registerType: RegisterType, start: nat, end: nat, keys: seq<string>)

  const MODBUS_MAX_BLOCK_REGISTERS := 125

  function Decimal(n: nat): string {
    if n < 10 then [('0' as int + n) as char] else Decimal(n / 10) + [('0' as int + n % 10) as char]
  }

  function TypeName(registerType: RegisterType): string {
    match registerType
    case Holding => "holding"
    case Input => "input"
  }

  function KeysOf(entries: seq<PlanEntry>): seq<string> {
    seq(|entries|, i requires 0 <= i < |entries| => entries[i].param.key)
  }

  predicate EntryFits(e: PlanEntry, registerType: RegisterType, startAddress: nat, registerCount: int) {
    && e.registerType == registerType
    && e.start >= startAddress
    && e.end <= startAddress + registerCount - 1
  }

  predicate Holds(block: PlanBlock, e: PlanEntry) {
    EntryFits(e, block.registerType, block.startAddress, block.registerCount)
  }

  // ---------------------------------------------------------------- the greedy merge

  type Group = g: seq<PlanEntry> | g != []
    witness [EntryOf("", ParamSpec("", 0, Holding, Int16, ABCD, 1.0, 0.0, 0, None, None))]

  function EndOf(group: Group): nat {
    var last := group[|group| - 1].end;
    if |group| == 1 then last else Max(EndOf(group[..|group| - 1]), last)
  }

  /** Neither the gap nor the block limit keeps the entry out of the group's block. */
  predicate Joins(group: Group, e: PlanEntry, maxGap: int, maxBlock: int) {
    && group[0].registerType == e.registerType
    && e.start - EndOf(group) - 1 <= maxGap
    && Max(EndOf(group), e.end) - group[0].start + 1 <= maxBlock
  }

  /** How the greedy merge cuts the sorted entries into groups, one group a block. */
  function Groups(entries: seq<PlanEntry>, maxGap: int, maxBlock: int): (groups: seq<Group>)
    ensures entries != [] ==> groups != []
  {
    if entries == [] then []
    else
      var n := |entries| - 1;
      var e := entries[n];
      var before := Groups(entries[..n], maxGap, maxBlock);
      if before != [] && Joins(before[|before| - 1], e, maxGap, maxBlock) then
        var grown: Group := before[|before| - 1] + [e];
        before[..|before| - 1] + [grown]
      else
        var single: Group := [e];
        before + [single]
  }

  function DraftOf(group: Group): BlockDraft {
    BlockDraft(group[0].registerType, group[0].start, EndOf(group), KeysOf(group))
  }

  function BlockOfDraft(draft: BlockDraft): PlanBlock {
    PlanBlock("merged:" + TypeName(draft.registerType) + ":" + Decimal(draft.start),
              draft.registerType, draft.start, draft.end - draft.start + 1, draft.keys, FromMerge)
  }

  function DraftsOf(groups: seq<Group>): seq<BlockDraft> {
    seq(|groups|, i requires 0 <= i < |groups| => DraftOf(groups[i]))
  }

  function MergedBlocks(entries: seq<PlanEntry>, maxGap: int, maxBlock: int): seq<PlanBlock> {
    var groups := Groups(entries, maxGap, maxBlock);
    seq(|groups|, i requires 0 <= i < |groups| => BlockOfDraft(DraftOf(groups[i])))
  }

  /** A param wider than the block limit cannot be asked for at all. */
  predicate TooWide(entries: seq<PlanEntry>, maxBlock: int) {
    exists e :: e in entries && e.words > maxBlock
  }

  method MergeEntries(entries: seq<PlanEntry>, maxGap: int, maxBlock: int) returns (r: Result<seq<PlanBlock>>)
    ensures r.Err? <==> TooWide(entries, maxBlock)
    ensures r.Ok? ==> r.value == MergedBlocks(entries, maxGap, maxBlock)
  {
    hide Groups, DraftsOf;
    var drafts: seq<BlockDraft> := [];
    NoDrafts(maxGap, maxBlock);
    for i := 0 to |entries|
      invariant drafts == DraftsOf(Groups(entries[..i], maxGap, maxBlock))
      invariant !TooWide(entries[..i], maxBlock)
    {
      var entry := entries[i];
      if entry.words > maxBlock {
        return Err("a 32-bit value cannot be split between requests");
      }
      assert entries[..i + 1] == entries[..i] + [entry];
      DraftsStep(entries[..i], entry, maxGap, maxBlock);
      if |drafts| > 0 && drafts[|drafts| - 1].registerType == entry.registerType {
        var current := drafts[|drafts| - 1];
        var gap := entry.start - current.end - 1;
        var end := Max(current.end, entry.end);
        if gap <= maxGap && end - current.start + 1 <= maxBlock {
          drafts := drafts[|drafts| - 1 := current.(end := end, keys := current.keys + [entry.param.key])];
          continue;
        }
      }
      drafts := drafts + [BlockDraft(entry.registerType, entry.start, entry.end, [entry.param.key])];
    }
    assert entries[..|entries|] == entries;
    BlocksOfDrafts(entries, maxGap, maxBlock);
    r := Ok(seq(|drafts|, i requires 0 <= i < |drafts| => BlockOfDraft(drafts[i])));
  }

  lemma NoDrafts(maxGap: int, maxBlock: int)
    ensures DraftsOf(Groups([], maxGap, maxBlock)) == []
  {
  }

  lemma BlocksOfDrafts(entries: seq<PlanEntry>, maxGap: int, maxBlock: int)
    ensures var drafts := DraftsOf(Groups(entries, maxGap, maxBlock));
            MergedBlocks(entries, maxGap, maxBlock) ==
            seq(|drafts|, i requires 0 <= i < |drafts| => BlockOfDraft(drafts[i]))
  {
    hide Groups, DraftOf, BlockOfDraft;
  }

  lemma GroupsStep(entries: seq<PlanEntry>, e: PlanEntry, maxGap: int, maxBlock: int)
    ensures var before := Groups(entries, maxGap, maxBlock);
            Groups(entries + [e], maxGap, maxBlock) ==
            if before != [] && Joins(before[|before| - 1], e, maxGap, maxBlock)
            then before[..|before| - 1] + [before[|before| - 1] + [e]]
            else before + [[e]]
  {
    assert (entries + [e])[..|entries|] == entries;
  }

  /** The same step on the drafts: the last one grows, or a new one is pushed. */
  lemma DraftsStep(entries: seq<PlanEntry>, e: PlanEntry, maxGap: int, maxBlock: int)
    ensures var drafts := DraftsOf(Groups(entries, maxGap, maxBlock));
            DraftsOf(Groups(entries + [e], maxGap, maxBlock)) ==
            if drafts != [] && var d := drafts[|drafts| - 1];
                 d.registerType == e.registerType
                 && e.start - d.end - 1 <= maxGap && Max(d.end, e.end) - d.start + 1 <= maxBlock
            then drafts[|drafts| - 1 := drafts[|drafts| - 1].(
                   end := Max(drafts[|drafts| - 1].end, e.end),
                   keys := drafts[|drafts| - 1].keys + [e.param.key])]
            else drafts + [BlockDraft(e.registerType, e.start, e.end, [e.param.key])]
  {
    hide Groups, EndOf, KeysOf;
    var before := Groups(entries, maxGap, maxBlock);
    GroupsStep(entries, e, maxGap, maxBlock);
    if before != [] {
      GrownGroup(before[|before| - 1], e);
    }
    SingleGroup(e);
  }

  lemma GrownGroup(group: Group, e: PlanEntry)
    ensures var grown: Group := group + [e];
            EndOf(grown) == Max(EndOf(group), e.end) && KeysOf(grown) == KeysOf(group) + [e.param.key]
  {
    assert (group + [e])[..|group|] == group;
  }

  lemma SingleGroup(e: PlanEntry)
    ensures EndOf([e]) == e.end && KeysOf([e]) == [e.param.key]
  {
  }

  function NaiveBlocks(entries: seq<PlanEntry>): seq<PlanBlock> {
    seq(|entries|, i requires 0 <= i < |entries| =>
      PlanBlock("naive:" + entries[i].param.key, entries[i].registerType, entries[i].start, entries[i].words,
                [entries[i].param.key], FromNaive))
  }

  // ---------------------------------------------------------------- declared blocks

  function Claimed(block: ReadBlock, entries: seq<PlanEntry>, taken: set<string>): seq<PlanEntry> {
    Filter(entries, (e: PlanEntry) => e.param.key !in taken
      && EntryFits(e, block.registerType, block.startAddress, block.registerCount))
  }

  function Unclaimed(entries: seq<PlanEntry>, taken: set<string>): seq<PlanEntry> {
    Filter(entries, (e: PlanEntry) => e.param.key !in taken)
  }

  function DeclaredBlock(block: ReadBlock, keys: seq<string>): PlanBlock {
    PlanBlock(block.id, block.registerType, block.startAddress, block.registerCount, keys, FromDeclared)
  }

  /** The declared blocks that got a param, each param given to the first block that fits, and the keys given. */
  function Kept(declared: seq<ReadBlock>, entries: seq<PlanEntry>): (seq<PlanBlock>, set<string>) {
    if declared == [] then ([], {})
    else
      var (kept, taken) := Kept(declared[..|declared| - 1], entries);
      var block := declared[|declared| - 1];
      var keys := KeysOf(Claimed(block, entries, taken));
      if keys == [] then (kept, taken)
      else (kept + [DeclaredBlock(block, keys)], taken + set key | key in keys)
  }

  function DeclaredOrMerged(declared: seq<ReadBlock>, entries: seq<PlanEntry>, maxGap: int, maxBlock: int)
      : seq<PlanBlock>
  {
    var (kept, taken) := Kept(declared, entries);
    kept + MergedBlocks(Unclaimed(entries, taken), maxGap, maxBlock)
  }

  predicate Oversized(declared: seq<ReadBlock>, maxBlock: int) {
    exists block :: block in declared && block.registerCount > maxBlock
  }

  method DeclaredBlocks(declared: seq<ReadBlock>, entries: seq<PlanEntry>, maxGap: int, maxBlock: int)
    returns (r: Result<seq<PlanBlock>>)
    ensures r.Err? <==>
            Oversized(declared, maxBlock) || TooWide(Unclaimed(entries, Kept(declared, entries).1), maxBlock)
    ensures r.Ok? ==> r.value == DeclaredOrMerged(declared, entries, maxGap, maxBlock)
  {
    var kept: seq<PlanBlock> := [];
    var taken: set<string> := {};
    for i := 0 to |declared|
      invariant (kept, taken) == Kept(declared[..i], entries)
      invariant !Oversized(declared[..i], maxBlock)
    {
      var block := declared[i];
      assert declared[..i + 1][..i] == declared[..i];
      if block.registerCount > maxBlock {
        return Err("a declared block is longer than one request may be");
      }
      var keys := KeysOf(Claimed(block, entries, taken));
      if |keys| == 0 {
        continue;
      }
      taken := taken + set key | key in keys;
      kept := kept + [DeclaredBlock(block, keys)];
    }
    assert declared[..|declared|] == declared;
    var merged := MergeEntries(Unclaimed(entries, taken), maxGap, maxBlock);
    match merged
    case Err(e) => r := Err(e);
    case Ok(blocks) => r := Ok(kept + blocks);
  }

  // ---------------------------------------------------------------- the plan

  predicate BlockLe(a: PlanBlock, b: PlanBlock) {
    Rank(a.registerType) < Rank(b.registerType)
    || (a.registerType == b.registerType
        && (a.startAddress < b.startAddress || (a.startAddress == b.startAddress && TextLe(a.id, b.id))))
  }

  predicate Needed(entries: seq<PlanEntry>, registerType: RegisterType, address: int) {
    exists e :: e in entries && e.registerType == registerType && e.start <= address <= e.end
  }

  /** The registers of the block that no param needs. */
  ghost function Unneeded(block: PlanBlock, entries: seq<PlanEntry>): set<int> {
    set a: int | block.startAddress <= a < block.startAddress + block.registerCount
                 && !Needed(entries, block.registerType, a)
  }

  ghost function WastedRegisters(blocks: seq<PlanBlock>, entries: seq<PlanEntry>): nat {
    if blocks == [] then 0
    else WastedRegisters(blocks[..|blocks| - 1], entries) + |Unneeded(blocks[|blocks| - 1], entries)|
  }

  function RegisterCount(blocks: seq<PlanBlock>): int {
    if blocks == [] then 0
    else RegisterCount(blocks[..|blocks| - 1]) + blocks[|blocks| - 1].registerCount
  }

  method UsedAddresses(entries: seq<PlanEntry>) returns (used: set<(RegisterType, int)>)
    ensures forall t, a :: (t, a) in used <==> Needed(entries, t, a)
  {
    used := {};
    for i := 0 to |entries|
      invariant forall t, a :: (t, a) in used <==> Needed(entries[..i], t, a)
    {
      var entry := entries[i];
      var address: int := entry.start;
      while address <= entry.end
        invariant entry.start <= address
        invariant address <= entry.end + 1 || address == entry.start
        invariant forall t, a :: (t, a) in used <==>
                  Needed(entries[..i], t, a) || (t == entry.registerType && entry.start <= a < address)
      {
        used := used + {(entry.registerType, address)};
        address := address + 1;
      }
      forall t, a
        ensures Needed(entries[..i + 1], t, a) <==>
                Needed(entries[..i], t, a) || (t == entry.registerType && entry.start <= a <= entry.end)
      {
        assert entries[..i + 1] == entries[..i] + [entry];
        assert entry in entries[..i + 1];
      }
    }
    assert entries[..|entries|] == entries;
  }

  method WastedInBlock(block: PlanBlock, used: set<(RegisterType, int)>, ghost entries: seq<PlanEntry>)
    returns (wasted: nat)
    requires forall t, a :: (t, a) in used <==> Needed(entries, t, a)
    ensures wasted == |Unneeded(block, entries)|
  {
    hide Needed, UnneededIn;
    wasted := 0;
    var offset := 0;
    NothingIn(block, entries);
    while offset < block.registerCount
      invariant 0 <= offset && (offset <= block.registerCount || offset == 0)
      invariant wasted == |UnneededIn(block, entries, offset)|
    {
      OneMoreRegister(block, entries, offset);
      if (block.registerType, block.startAddress + offset) !in used {
        wasted := wasted + 1;
      }
      offset := offset + 1;
    }
    WholeBlock(block, entries, offset);
  }

  /** The unneeded registers among the first `n` of the block. */
  ghost function UnneededIn(block: PlanBlock, entries: seq<PlanEntry>, n: nat): set<int> {
    set a: int | block.startAddress <= a < block.startAddress + n && !Needed(entries, block.registerType, a)
  }

  lemma NothingIn(block: PlanBlock, entries: seq<PlanEntry>)
    ensures UnneededIn(block, entries, 0) == {}
  {
  }

  lemma OneMoreRegister(block: PlanBlock, entries: seq<PlanEntry>, n: nat)
    ensures |UnneededIn(block, entries, n + 1)| ==
            |UnneededIn(block, entries, n)|
            + if Needed(entries, block.registerType, block.startAddress + n) then 0 else 1
  {
    hide Needed;
    var at := block.startAddress + n;
    if Needed(entries, block.registerType, at) {
      assert UnneededIn(block, entries, n + 1) == UnneededIn(block, entries, n);
    } else {
      assert UnneededIn(block, entries, n + 1) == UnneededIn(block, entries, n) + {at};
    }
  }

  lemma WholeBlock(block: PlanBlock, entries: seq<PlanEntry>, n: nat)
    requires n == block.registerCount || (n == 0 && block.registerCount < 0)
    ensures UnneededIn(block, entries, n) == Unneeded(block, entries)
  {
    hide Needed;
  }

  function LimitOf(profile: Profile, options: Options): int {
    Min(options.maxBlockRegisters.GetOr(profile.maxBlockRegisters), MODBUS_MAX_BLOCK_REGISTERS)
  }

  function GapOf(profile: Profile, options: Options): int {
    options.maxGapRegisters.GetOr(profile.maxGapRegisters)
  }

  predicate UsesDeclared(profile: Profile, options: Options) {
    |profile.declared| > 0 && !options.ignoreDeclaredBlocks
  }

  /** The blocks of the chosen mode, before they are put into order. */
  function BuiltBlocks(profile: Profile, options: Options): seq<PlanBlock> {
    var entries := EntriesOf(profile);
    if options.mode == Some(Naive) then NaiveBlocks(entries)
    else if UsesDeclared(profile, options) then
      DeclaredOrMerged(profile.declared, entries, GapOf(profile, options), LimitOf(profile, options))
    else MergedBlocks(entries, GapOf(profile, options), LimitOf(profile, options))
  }

  predicate Unbuildable(profile: Profile, options: Options) {
    var entries := EntriesOf(profile);
    var limit := LimitOf(profile, options);
    if options.mode != Some(Naive) && UsesDeclared(profile, options)
    then Oversized(profile.declared, limit)
         || TooWide(Unclaimed(entries, Kept(profile.declared, entries).1), limit)
    else TooWide(entries, limit)
  }

  method BuildBlocks(profile: Profile, options: Options, entries: seq<PlanEntry>)
    returns (built: Result<seq<PlanBlock>>)
    requires entries == EntriesOf(profile)
    ensures built.Err? <==> Unbuildable(profile, options)
    ensures built.Ok? ==> built.value == BuiltBlocks(profile, options)
  {
    var maxBlock := LimitOf(profile, options);
    var maxGap := GapOf(profile, options);
    if options.mode.GetOr(Merged) == Naive {
      built := if TooWide(entries, maxBlock) then Err("a 32-bit value cannot be split between requests")
               else Ok(NaiveBlocks(entries));
    } else if UsesDeclared(profile, options) {
      built := DeclaredBlocks(profile.declared, entries, maxGap, maxBlock);
    } else {
      built := MergeEntries(entries, maxGap, maxBlock);
    }
  }

  method CountWasted(blocks: seq<PlanBlock>, entries: seq<PlanEntry>) returns (wasted: nat)
    ensures wasted == WastedRegisters(blocks, entries)
  {
    var used := UsedAddresses(entries);
    wasted := 0;
    for i := 0 to |blocks|
      invariant wasted == WastedRegisters(blocks[..i], entries)
    {
      assert blocks[..i + 1][..i] == blocks[..i];
      var inBlock := WastedInBlock(blocks[i], used, entries);
      wasted := wasted + inBlock;
    }
    assert blocks[..|blocks|] == blocks;
  }

  method BuildDeviceReadPlan(profile: Profile, options: Options) returns (r: Result<Plan>)
    ensures r.Err? <==> Unbuildable(profile, options)
    ensures r.Ok? ==>
              && r.value.blocks == SortBy(BuiltBlocks(profile, options), BlockLe)
              && r.value.mode == options.mode.GetOr(Merged)
              && r.value.requestCount == |r.value.blocks|
              && r.value.registerCount == RegisterCount(r.value.blocks)
              && r.value.wastedRegisters == WastedRegisters(r.value.blocks, EntriesOf(profile))
  {
    var entries := ListPlanEntries(profile);
    var built := BuildBlocks(profile, options, entries);
    match built
    case Err(error) => r := Err(error);
    case Ok(blocks) =>
      var ordered := SortBy(blocks, BlockLe);
      var wasted := CountWasted(ordered, entries);
      r := Ok(Plan(options.mode.GetOr(Merged), ordered, |ordered|, RegisterCount(ordered), wasted));
  }
}
