/** Which plan is built for which options, told of the finished plan in terms of the profile and the options alone. */
module PlanModes {
  import opened Wrappers
  import opened Sequences
  import opened RegisterTypes
  import opened Profiles
  import opened ReadPlan
  import opened PlanOptimality
  import opened PlanPlacement

  /** The blocks of the plan, in its order. */
  function PlannedBlocks(profile: Profile, options: Options): seq<PlanBlock> {
    SortBy(BuiltBlocks(profile, options), BlockLe)
  }

  lemma PlannedAreBuilt(profile: Profile, options: Options)
    ensures forall b :: b in PlannedBlocks(profile, options) <==> b in BuiltBlocks(profile, options)
    ensures |PlannedBlocks(profile, options)| == |BuiltBlocks(profile, options)|
    ensures SortedBy(PlannedBlocks(profile, options), BlockLe)
  {
    hide BuiltBlocks, TextLe;
    TextLeIsTotalOrder();
    BlockLeIsTotal();
    SortSorts(BuiltBlocks(profile, options), BlockLe);
  }

  lemma BlockLeIsTotal()
    ensures TotalPreorder(BlockLe)
  {
    TextLeIsTotalOrder();
  }

  // ---------------------------------------------------------------- naive

  ghost predicate AsksForAlone(b: PlanBlock, e: PlanEntry) {
    b == PlanBlock("naive:" + e.param.key, e.registerType, e.start, e.words, [e.param.key], FromNaive)
  }

  /** In naive mode there is one block for each param, exactly as long as the param, whatever is declared. */
  lemma NaiveAsksOneByOne(profile: Profile, options: Options)
    requires options.mode == Some(Naive)
    ensures var blocks := PlannedBlocks(profile, options);
            && |blocks| == |EntriesOf(profile)|
            && (forall b :: b in blocks ==> exists e :: e in EntriesOf(profile) && AsksForAlone(b, e))
            && (forall e :: e in EntriesOf(profile) ==> exists b :: b in blocks && AsksForAlone(b, e))
  {
    hide EntriesOf;
    var entries, built := EntriesOf(profile), BuiltBlocks(profile, options);
    PlannedAreBuilt(profile, options);
    assert built == NaiveBlocks(entries);
    forall b | b in built ensures exists e :: e in entries && AsksForAlone(b, e) {
      var i :| 0 <= i < |built| && built[i] == b;
      assert AsksForAlone(b, entries[i]);
    }
    forall e | e in entries ensures exists b :: b in built && AsksForAlone(b, e) {
      var i :| 0 <= i < |entries| && entries[i] == e;
      assert built[i] in built && AsksForAlone(built[i], e);
    }
  }

  // ---------------------------------------------------------------- declared blocks

  predicate FitsBlock(e: PlanEntry, block: ReadBlock) {
    EntryFits(e, block.registerType, block.startAddress, block.registerCount)
  }

  /** The first declared block that holds the param whole. */
  ghost predicate FirstHolder(declared: seq<ReadBlock>, i: nat, e: PlanEntry) {
    && i < |declared| && FitsBlock(e, declared[i])
    && forall j :: 0 <= j < i ==> !FitsBlock(e, declared[j])
  }

  ghost predicate HeldBySome(declared: seq<ReadBlock>, e: PlanEntry) {
    exists i :: 0 <= i < |declared| && FitsBlock(e, declared[i])
  }

  ghost predicate Stands(b: PlanBlock, block: ReadBlock) {
    && b.source == FromDeclared && b.id == block.id && b.registerType == block.registerType
    && b.startAddress == block.startAddress && b.registerCount == block.registerCount
  }

  ghost predicate StandsForFirst(b: PlanBlock, declared: seq<ReadBlock>, e: PlanEntry) {
    exists i: nat :: FirstHolder(declared, i, e) && Stands(b, declared[i])
  }

  /** The kept blocks list each param under the first block that holds it, and these are the keys taken. */
  lemma {:induction false} KeptAreFirst(declared: seq<ReadBlock>, entries: seq<PlanEntry>)
    requires UniqueKeys(entries)
    ensures var (kept, taken) := Kept(declared, entries);
            && (forall b, e :: b in kept && e in entries && e.param.key in b.paramKeys ==>
                  StandsForFirst(b, declared, e))
            && (forall e :: e in entries ==> (e.param.key in taken <==> HeldBySome(declared, e)))
  {
    if declared != [] {
      hide FitsBlock, Claimed, UniqueKeys, KeysOf;
      var n := |declared| - 1;
      var front, block := declared[..n], declared[n];
      assert declared == front + [block];
      var (kept, taken) := Kept(front, entries);
      var keys := KeysOf(Claimed(block, entries, taken));
      KeptAreFirst(front, entries);
      ClaimedFit(entries, block, taken);
      forall e | e in entries ensures HeldBySome(declared, e) <==> HeldBySome(front, e) || FitsBlock(e, block) {
        HeldByOneMore(front, block, e);
      }
      var after := Kept(declared, entries);
      forall b, e | b in after.0 && e in entries && e.param.key in b.paramKeys
        ensures StandsForFirst(b, declared, e)
      {
        if b in kept {
          FirstStays(b, front, block, e);
        } else {
          assert b == DeclaredBlock(block, keys) && e.param.key in keys;
          FirstIsLast(b, front, block, e);
        }
      }
    }
  }

  lemma ClaimedFit(entries: seq<PlanEntry>, block: ReadBlock, taken: set<string>)
    requires UniqueKeys(entries)
    ensures forall e :: e in entries ==>
              (e.param.key in KeysOf(Claimed(block, entries, taken)) <==>
               e.param.key !in taken && FitsBlock(e, block))
  {
    ClaimedKeys(entries, block, taken);
  }

  lemma HeldByOneMore(front: seq<ReadBlock>, block: ReadBlock, e: PlanEntry)
    ensures HeldBySome(front + [block], e) <==> HeldBySome(front, e) || FitsBlock(e, block)
  {
    hide FitsBlock;
    var declared := front + [block];
    if HeldBySome(front, e) {
      var i :| 0 <= i < |front| && FitsBlock(e, front[i]);
      assert declared[i] == front[i];
    }
    if FitsBlock(e, block) {
      assert declared[|front|] == block;
    }
  }

  lemma FirstStays(b: PlanBlock, front: seq<ReadBlock>, block: ReadBlock, e: PlanEntry)
    requires StandsForFirst(b, front, e)
    ensures StandsForFirst(b, front + [block], e)
  {
    hide FitsBlock;
    var i: nat :| FirstHolder(front, i, e) && Stands(b, front[i]);
    assert FirstHolder(front + [block], i, e) && Stands(b, (front + [block])[i]);
  }

  lemma FirstIsLast(b: PlanBlock, front: seq<ReadBlock>, block: ReadBlock, e: PlanEntry)
    requires !HeldBySome(front, e) && FitsBlock(e, block) && Stands(b, block)
    ensures StandsForFirst(b, front + [block], e)
  {
    hide FitsBlock;
    assert FirstHolder(front + [block], |front|, e) && Stands(b, (front + [block])[|front|]);
  }

  lemma MergedAreOfPart(part: seq<PlanEntry>, maxGap: int, maxBlock: int, b: PlanBlock, key: string)
    requires b in MergedBlocks(part, maxGap, maxBlock)
    ensures b.source == FromMerge
    ensures key in b.paramKeys ==> exists e :: e in part && e.param.key == key
  {
    hide Groups;
    var groups := Groups(part, maxGap, maxBlock);
    var k :| 0 <= k < |groups| && b == BlockOfDraft(DraftOf(groups[k]));
    if key in b.paramKeys {
      var i :| 0 <= i < |groups[k]| && KeysOf(groups[k])[i] == key;
      GroupsFlatten(part, maxGap, maxBlock);
      FlattenMembers(groups);
      assert groups[k][i] in groups[k];
    }
  }

  /** By whom a param is to be read when the declared blocks count. */
  ghost predicate ListedByRight(b: PlanBlock, declared: seq<ReadBlock>, e: PlanEntry) {
    if HeldBySome(declared, e) then StandsForFirst(b, declared, e) else b.source == FromMerge
  }

  /**
   Where blocks are declared and not to be ignored, a param is listed by the first of them that holds it whole, under
   that block's id, start and length, and by a merged block if none does.
   */
  lemma DeclaredComeFirst(profile: Profile, options: Options)
    requires UniqueKeys(EntriesOf(profile))
    requires options.mode != Some(Naive) && profile.declared != [] && !options.ignoreDeclaredBlocks
    ensures forall b, e ::
              b in PlannedBlocks(profile, options) && e in EntriesOf(profile) && e.param.key in b.paramKeys ==>
                ListedByRight(b, profile.declared, e)
  {
    hide EntriesOf, MergedBlocks, Kept, UniqueKeys, StandsForFirst, HeldBySome;
    var entries, declared := EntriesOf(profile), profile.declared;
    var (kept, taken) := Kept(declared, entries);
    var rest := Unclaimed(entries, taken);
    PlannedAreBuilt(profile, options);
    KeptAreFirst(declared, entries);
    FilterMembers(entries, (e: PlanEntry) => e.param.key !in taken);
    forall b, e | b in BuiltBlocks(profile, options) && e in entries && e.param.key in b.paramKeys
      ensures ListedByRight(b, declared, e)
    {
      if b in kept {
        StandsMeansHeld(b, declared, e);
      } else {
        MergedAreOfPart(rest, GapOf(profile, options), LimitOf(profile, options), b, e.param.key);
        var other :| other in rest && other.param.key == e.param.key;
        KeyOwner(entries, other, e);
      }
    }
  }

  lemma StandsMeansHeld(b: PlanBlock, declared: seq<ReadBlock>, e: PlanEntry)
    requires StandsForFirst(b, declared, e)
    ensures HeldBySome(declared, e)
  {
    hide FitsBlock;
    var i: nat :| FirstHolder(declared, i, e) && Stands(b, declared[i]);
  }

  // ---------------------------------------------------------------- merged

  /** Otherwise every block comes from the merge. */
  lemma OtherwiseMerged(profile: Profile, options: Options)
    requires options.mode != Some(Naive) && (profile.declared == [] || options.ignoreDeclaredBlocks)
    ensures forall b :: b in PlannedBlocks(profile, options) ==> b.source == FromMerge
  {
    hide EntriesOf, MergedBlocks;
    PlannedAreBuilt(profile, options);
    var entries := EntriesOf(profile);
    forall b | b in BuiltBlocks(profile, options) ensures b.source == FromMerge {
      MergedAreOfPart(entries, GapOf(profile, options), LimitOf(profile, options), b, "");
    }
  }

  /** What one request may ask for: the option, else the profile's limit, and never more than Modbus allows. */
  ghost predicate WithinLimit(count: int, profile: Profile, options: Options) {
    && count <= 125
    && match options.maxBlockRegisters
       case Some(limit) => count <= limit
       case None => count <= profile.maxBlockRegisters
  }

  ghost predicate GapAllowed(gap: int, profile: Profile, options: Options) {
    match options.maxGapRegisters
    case Some(given) => gap == given
    case None => gap == profile.maxGapRegisters
  }

  /** A way to read every param by blocks that the options and the profile allow. */
  ghost predicate Allowed(blocks: seq<PlanBlock>, profile: Profile, options: Options, gap: nat) {
    && CoversWhole(blocks, EntriesOf(profile))
    && forall b :: b in blocks ==>
         Admissible(b, EntriesOf(profile), gap, b.registerCount) && WithinLimit(b.registerCount, profile, options)
  }

  /** In each mode: no block of a plan is longer than the options, the profile and Modbus allow. */
  lemma BlocksAreWithinLimit(profile: Profile, options: Options)
    requires UniqueKeys(EntriesOf(profile)) && DisjointEntries(EntriesOf(profile)) && !Unbuildable(profile, options)
    ensures forall b :: b in PlannedBlocks(profile, options) ==> WithinLimit(b.registerCount, profile, options)
  {
    hide EntriesOf, UniqueKeys, DisjointEntries, MergedBlocks;
    var entries, limit := EntriesOf(profile), LimitOf(profile, options);
    PlannedAreBuilt(profile, options);
    EntriesAreOrdered(profile);
    SortedDisjointIsLaid(entries);
    forall b | b in BuiltBlocks(profile, options) ensures b.registerCount <= limit {
      if options.mode == Some(Naive) {
        var i :| 0 <= i < |entries| && NaiveBlocks(entries)[i] == b;
        assert entries[i] in entries;
      } else if UsesDeclared(profile, options) {
        var (kept, taken) := Kept(profile.declared, entries);
        var rest := Unclaimed(entries, taken);
        UnclaimedIsLaid(entries, taken);
        SpannedWhenNotTooWide(rest, limit);
        if b in kept {
          KeptAreDeclared(profile.declared, entries, b);
        } else {
          MergedAreShort(rest, GapOf(profile, options), limit, b);
        }
      } else {
        SpannedWhenNotTooWide(entries, limit);
        MergedAreShort(entries, GapOf(profile, options), limit, b);
      }
    }
  }

  lemma {:induction false} KeptAreDeclared(declared: seq<ReadBlock>, entries: seq<PlanEntry>, b: PlanBlock)
    requires b in Kept(declared, entries).0
    ensures exists block :: block in declared && Stands(b, block)
  {
    hide Claimed, KeysOf;
    var n := |declared| - 1;
    if b in Kept(declared[..n], entries).0 {
      KeptAreDeclared(declared[..n], entries, b);
    } else {
      assert declared[n] in declared && Stands(b, declared[n]);
    }
  }

  lemma MergedAreShort(part: seq<PlanEntry>, maxGap: int, maxBlock: int, b: PlanBlock)
    requires Laid(part) && Spanned(part, maxBlock) && b in MergedBlocks(part, maxGap, maxBlock)
    ensures b.registerCount <= maxBlock
  {
    hide Groups, Laid, Spanned;
    var groups := Groups(part, maxGap, maxBlock);
    GroupsAreOk(part, maxGap, maxBlock);
    var k :| 0 <= k < |groups| && b == BlockOfDraft(DraftOf(groups[k]));
    assert GroupOk(groups[k], maxGap, maxBlock);
  }

  /**
   The merged plan is the best the options allow: it reads every param, within limit and gap, and no other way to do
   so has fewer requests.
   */
  lemma MergedPlanIsBest(profile: Profile, options: Options, gap: nat, rival: seq<PlanBlock>)
    requires UniqueKeys(EntriesOf(profile)) && DisjointEntries(EntriesOf(profile)) && !Unbuildable(profile, options)
    requires options.mode != Some(Naive) && (profile.declared == [] || options.ignoreDeclaredBlocks)
    requires GapAllowed(gap, profile, options)
    ensures Allowed(PlannedBlocks(profile, options), profile, options, gap)
    ensures Allowed(rival, profile, options, gap) ==> |PlannedBlocks(profile, options)| <= |rival|
  {
    hide EntriesOf, UniqueKeys, DisjointEntries, MergedBlocks, Admissible, Holds;
    var entries, limit := EntriesOf(profile), LimitOf(profile, options);
    var blocks := PlannedBlocks(profile, options);
    PlannedAreBuilt(profile, options);
    EntriesAreOrdered(profile);
    assert BuiltBlocks(profile, options) == MergedBlocks(entries, gap, limit) && !TooWide(entries, limit);
    MergeIsAdmissible(entries, gap, limit);
    BlocksAreWithinLimit(profile, options);
    forall b | b in blocks ensures Admissible(b, entries, gap, b.registerCount) {
      ShorterLimit(b, entries, gap, limit);
    }
    forall e | e in entries ensures exists i :: 0 <= i < |blocks| && Holds(blocks[i], e) {
      var k :| 0 <= k < |BuiltBlocks(profile, options)| && Holds(BuiltBlocks(profile, options)[k], e);
      assert BuiltBlocks(profile, options)[k] in blocks;
    }
    if Allowed(rival, profile, options, gap) {
      forall b | b in rival ensures Admissible(b, entries, gap, limit) {
        ShorterLimit(b, entries, gap, limit);
      }
      MergeIsMinimal(entries, gap, limit, rival);
    }
  }

  lemma ShorterLimit(b: PlanBlock, entries: seq<PlanEntry>, gap: nat, limit: int)
    ensures Admissible(b, entries, gap, limit) ==> Admissible(b, entries, gap, b.registerCount)
    ensures Admissible(b, entries, gap, b.registerCount) && b.registerCount <= limit ==>
              Admissible(b, entries, gap, limit)
  {
  }

  // ---------------------------------------------------------------- order

  /** Holding registers before input registers, rising addresses within a type, and ids in order at one address. */
  lemma BlocksAreInOrder(profile: Profile, options: Options, i: nat, j: nat)
    requires i < j < |PlannedBlocks(profile, options)|
    ensures var (a, b) := (PlannedBlocks(profile, options)[i], PlannedBlocks(profile, options)[j]);
            if a.registerType == b.registerType
            then a.startAddress < b.startAddress || (a.startAddress == b.startAddress && TextLe(a.id, b.id))
            else a.registerType == Holding && b.registerType == Input
  {
    hide BuiltBlocks;
    PlannedAreBuilt(profile, options);
    var blocks := PlannedBlocks(profile, options);
    assert BlockLe(blocks[i], blocks[j]);
  }

  // ---------------------------------------------------------------- ids of merged blocks

  /** The number a text of digits stands for. */
  function ReadDecimal(digits: string): int {
    if digits == "" then 0
    else 10 * ReadDecimal(digits[..|digits| - 1]) + (digits[|digits| - 1] as int - '0' as int)
  }

  predicate IsDigit(c: char) {
    '0' <= c <= '9'
  }

  lemma {:induction false} DecimalReadsBack(n: nat)
    ensures ReadDecimal(Decimal(n)) == n && Decimal(n) != ""
    ensures forall i :: 0 <= i < |Decimal(n)| ==> IsDigit(Decimal(n)[i])
  {
    if n >= 10 {
      DecimalReadsBack(n / 10);
      assert Decimal(n)[..|Decimal(n)| - 1] == Decimal(n / 10);
    } else {
      assert Decimal(n)[..0] == "";
    }
  }

  /** A merged block is named after its register type and its first address. */
  ghost predicate NamedByStart(b: PlanBlock) {
    exists digits: string ::
      ReadDecimal(digits) == b.startAddress && (forall i :: 0 <= i < |digits| ==> IsDigit(digits[i]))
      && b.id == (if b.registerType == Holding then "merged:holding:" else "merged:input:") + digits
  }

  lemma DraftIsNamedByStart(draft: BlockDraft)
    ensures NamedByStart(BlockOfDraft(draft))
  {
    hide Decimal, ReadDecimal, IsDigit;
    DecimalReadsBack(draft.start);
    var b := BlockOfDraft(draft);
    assert "merged:" + "holding" + ":" == "merged:holding:" && "merged:" + "input" + ":" == "merged:input:";
    assert b.id == (if b.registerType == Holding then "merged:holding:" else "merged:input:") + Decimal(draft.start);
  }

  lemma SameNameSameStart(a: PlanBlock, b: PlanBlock)
    requires NamedByStart(a) && NamedByStart(b) && a.id == b.id
    ensures a.registerType == b.registerType && a.startAddress == b.startAddress
  {
    assert a.id[7] == b.id[7] && "merged:holding:"[7] == 'h' && "merged:input:"[7] == 'i';
    var n := if a.registerType == Holding then 15 else 13;
    assert a.id[n..] == b.id[n..];
  }

  /** In a merged plan every block is named so, and no two blocks have one name. */
  lemma MergedIdsDiffer(profile: Profile, options: Options)
    requires DisjointEntries(EntriesOf(profile)) && !Unbuildable(profile, options)
    requires options.mode != Some(Naive) && (profile.declared == [] || options.ignoreDeclaredBlocks)
    ensures var built := BuiltBlocks(profile, options);
            && (forall b :: b in built ==> NamedByStart(b))
            && (forall k, j :: 0 <= k < j < |built| ==> built[k].id != built[j].id)
  {
    hide EntriesOf, DisjointEntries, Groups, DraftOf, BlockOfDraft, NamedByStart, Flatten;
    var entries, gap, limit := EntriesOf(profile), GapOf(profile, options), LimitOf(profile, options);
    var groups, built := Groups(entries, gap, limit), BuiltBlocks(profile, options);
    EntriesAreOrdered(profile);
    SortedDisjointIsLaid(entries);
    GroupsFlatten(entries, gap, limit);
    forall k | 0 <= k < |built| ensures NamedByStart(built[k]) {
      DraftIsNamedByStart(DraftOf(groups[k]));
    }
    forall k, j | 0 <= k < j < |built| ensures built[k].id != built[j].id {
      FlattenMembers(groups);
      assert groups[k][0] in groups[k] && groups[j][0] in groups[j];
      assert groups[k][0] in entries && groups[j][0] in entries;
      GroupsInOrder(groups, k, j, groups[k][0], groups[j][0]);
      StartsAtFirst(groups[k]);
      StartsAtFirst(groups[j]);
      if built[k].id == built[j].id {
        SameNameSameStart(built[k], built[j]);
        assert false;
      }
    }
  }

  lemma StartsAtFirst(group: Group)
    ensures var b := BlockOfDraft(DraftOf(group));
            b.registerType == group[0].registerType && b.startAddress == group[0].start
  {
  }

  // ---------------------------------------------------------------- totals

  /** The registers among the first `n` of the block that some param needs. */
  ghost function UsefulIn(block: PlanBlock, entries: seq<PlanEntry>, n: nat): set<int> {
    set a: int | block.startAddress <= a < block.startAddress + n && Needed(entries, block.registerType, a)
  }

  ghost function Useful(block: PlanBlock, entries: seq<PlanEntry>): set<int> {
    UsefulIn(block, entries, if block.registerCount > 0 then block.registerCount else 0)
  }

  ghost function UsefulRegisters(blocks: seq<PlanBlock>, entries: seq<PlanEntry>): nat {
    if blocks == [] then 0
    else UsefulRegisters(blocks[1..], entries) + |Useful(blocks[0], entries)|
  }

  lemma {:induction false} UsefulOneMore(blocks: seq<PlanBlock>, b: PlanBlock, entries: seq<PlanEntry>)
    ensures UsefulRegisters(blocks + [b], entries) == UsefulRegisters(blocks, entries) + |Useful(b, entries)|
  {
    hide Useful;
    if blocks == [] {
      assert [b][1..] == [];
    } else {
      assert (blocks + [b])[1..] == blocks[1..] + [b];
      UsefulOneMore(blocks[1..], b, entries);
    }
  }

  lemma {:induction false} FirstRegisters(block: PlanBlock, entries: seq<PlanEntry>, n: nat)
    ensures n == |UsefulIn(block, entries, n)| + |UnneededIn(block, entries, n)|
  {
    hide Needed;
    if n == 0 {
      NothingIn(block, entries);
      assert UsefulIn(block, entries, 0) == {};
    } else {
      FirstRegisters(block, entries, n - 1);
      OneMoreRegister(block, entries, n - 1);
      var at := block.startAddress + n - 1;
      assert UsefulIn(block, entries, n) ==
             UsefulIn(block, entries, n - 1) + if Needed(entries, block.registerType, at) then {at} else {};
    }
  }

  lemma BlockAddsUp(block: PlanBlock, entries: seq<PlanEntry>)
    requires block.registerCount >= 0
    ensures block.registerCount == |Useful(block, entries)| + |Unneeded(block, entries)|
  {
    hide Needed, UnneededIn;
    FirstRegisters(block, entries, block.registerCount);
    WholeBlock(block, entries, block.registerCount);
  }

  /** The totals of a plan: every register it asks for is needed by some param, or counted as wasted. */
  lemma {:induction false} RegistersAddUp(blocks: seq<PlanBlock>, entries: seq<PlanEntry>)
    requires forall b :: b in blocks ==> b.registerCount >= 0
    ensures RegisterCount(blocks) == UsefulRegisters(blocks, entries) + WastedRegisters(blocks, entries)
  {
    hide Unneeded, Useful;
    if blocks != [] {
      var n := |blocks| - 1;
      assert blocks == blocks[..n] + [blocks[n]];
      RegistersAddUp(blocks[..n], entries);
      UsefulOneMore(blocks[..n], blocks[n], entries);
      BlockAddsUp(blocks[n], entries);
    }
  }
}
