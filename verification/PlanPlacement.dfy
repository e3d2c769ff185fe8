/**
Whatever the mode, a plan reads every param in exactly one place: each key of the profile stands in the
key lists of the plan's blocks exactly once, and the block that lists it holds the whole param.
*/
module PlanPlacement {
  import opened Wrappers
  import opened Sequences
  import opened Profiles
  import opened ReadPlan
  import opened PlanOptimality

  /** How often each key is listed, over all blocks. */
  ghost function KeyBag(blocks: seq<PlanBlock>): multiset<string> {
    if blocks == [] then multiset{}
    else KeyBag(blocks[..|blocks| - 1]) + multiset(blocks[|blocks| - 1].paramKeys)
  }

  ghost predicate ListedWhole(blocks: seq<PlanBlock>, entries: seq<PlanEntry>) {
    forall b, e :: b in blocks && e in entries && e.param.key in b.paramKeys ==> Holds(b, e)
  }

  /** Every param has its one place. */
  ghost predicate PlacedOnce(blocks: seq<PlanBlock>, entries: seq<PlanEntry>) {
    KeyBag(blocks) == multiset(KeysOf(entries)) && ListedWhole(blocks, entries)
  }

  // ---------------------------------------------------------------- key bags

  lemma {:induction false} KeyBagAppend(a: seq<PlanBlock>, b: seq<PlanBlock>)
    ensures KeyBag(a + b) == KeyBag(a) + KeyBag(b)
  {
    if b == [] {
      assert a + b == a;
    } else {
      var n := |b| - 1;
      assert (a + b)[..|a + b| - 1] == a + b[..n];
      KeyBagAppend(a, b[..n]);
    }
  }

  lemma {:induction false} KeyBagOfInsert(blocks: seq<PlanBlock>, b: PlanBlock)
    ensures KeyBag(Insert(blocks, b, BlockLe)) == KeyBag(blocks) + multiset(b.paramKeys)
  {
    if blocks == [] || BlockLe(blocks[|blocks| - 1], b) {
      assert (blocks + [b])[..|blocks|] == blocks;
    } else {
      var n := |blocks| - 1;
      KeyBagOfInsert(blocks[..n], b);
      var r := Insert(blocks[..n], b, BlockLe);
      assert (r + [blocks[n]])[..|r|] == r;
    }
  }

  lemma {:induction false} KeyBagOfSort(blocks: seq<PlanBlock>)
    ensures KeyBag(SortBy(blocks, BlockLe)) == KeyBag(blocks)
  {
    if blocks != [] {
      var n := |blocks| - 1;
      KeyBagOfSort(blocks[..n]);
      KeyBagOfInsert(SortBy(blocks[..n], BlockLe), blocks[n]);
    }
  }

  function BlocksOfGroups(groups: seq<Group>): seq<PlanBlock> {
    seq(|groups|, i requires 0 <= i < |groups| => BlockOfDraft(DraftOf(groups[i])))
  }

  lemma {:induction false} KeyBagOfGroups(groups: seq<Group>)
    ensures KeyBag(BlocksOfGroups(groups)) == multiset(KeysOf(Flatten(groups)))
  {
    hide KeyBag, Flatten, BlocksOfGroups, KeysOf, DraftOf, BlockOfDraft;
    if groups == [] {
      NoGroups();
    } else {
      var n := |groups| - 1;
      var front: seq<Group>, last: Group := groups[..n], groups[n];
      KeyBagOfGroups(front);
      assert groups == front + [last];
      BlocksOfOneMore(front, last);
      KeyBagOfOneMore(BlocksOfGroups(front), BlockOfDraft(DraftOf(last)));
      FlattenOneMore(front, last);
      KeysOfJoined(Flatten(front), last);
    }
  }

  lemma NoGroups()
    ensures KeyBag(BlocksOfGroups([])) == multiset(KeysOf(Flatten([])))
  {
  }

  lemma KeyBagOfOneMore(blocks: seq<PlanBlock>, last: PlanBlock)
    ensures KeyBag(blocks + [last]) == KeyBag(blocks) + multiset(last.paramKeys)
  {
    assert (blocks + [last])[..|blocks|] == blocks;
  }

  lemma BlocksOfOneMore(groups: seq<Group>, last: Group)
    ensures BlocksOfGroups(groups + [last]) == BlocksOfGroups(groups) + [BlockOfDraft(DraftOf(last))]
    ensures BlockOfDraft(DraftOf(last)).paramKeys == KeysOf(last)
  {
    hide EndOf, TypeName, Decimal, KeysOf;
  }

  lemma KeysOfJoined(a: seq<PlanEntry>, b: seq<PlanEntry>)
    ensures KeysOf(a + b) == KeysOf(a) + KeysOf(b)
    ensures multiset(KeysOf(a + b)) == multiset(KeysOf(a)) + multiset(KeysOf(b))
  {
    assert KeysOf(a + b) == KeysOf(a) + KeysOf(b);
  }

  lemma {:induction false} KeyBagOfNaive(entries: seq<PlanEntry>)
    ensures KeyBag(NaiveBlocks(entries)) == multiset(KeysOf(entries))
  {
    if entries != [] {
      hide KeyBag, NaiveBlocks, KeysOf;
      var n := |entries| - 1;
      var front, last := entries[..n], entries[n];
      KeyBagOfNaive(front);
      assert entries == front + [last];
      NaiveOfOneMore(front, last);
      KeyBagOfOneMore(NaiveBlocks(front), NaiveBlocks([last])[0]);
      KeysOfJoined(front, [last]);
    }
  }

  lemma NaiveOfOneMore(entries: seq<PlanEntry>, last: PlanEntry)
    ensures |NaiveBlocks([last])| == 1 && NaiveBlocks([last])[0].paramKeys == KeysOf([last])
    ensures NaiveBlocks(entries + [last]) == NaiveBlocks(entries) + [NaiveBlocks([last])[0]]
  {
  }

  // ---------------------------------------------------------------- who claims what

  lemma KeyOwner(entries: seq<PlanEntry>, a: PlanEntry, b: PlanEntry)
    requires UniqueKeys(entries) && a in entries && b in entries && a.param.key == b.param.key
    ensures a == b
  {
    var i :| 0 <= i < |entries| && entries[i] == a;
    var j :| 0 <= j < |entries| && entries[j] == b;
    assert i == j || i < j || j < i;
  }

  /** A block takes over exactly the unclaimed keys that fit it. */
  lemma {:induction false} ClaimMovesKeys(entries: seq<PlanEntry>, block: ReadBlock, taken: set<string>,
      given: set<string>)
    requires forall e :: e in entries && e.param.key !in taken ==>
               (e.param.key in given <==> EntryFits(e, block.registerType, block.startAddress, block.registerCount))
    ensures multiset(KeysOf(Unclaimed(entries, taken))) ==
            multiset(KeysOf(Claimed(block, entries, taken))) + multiset(KeysOf(Unclaimed(entries, taken + given)))
  {
    if entries != [] {
      var n := |entries| - 1;
      var e := entries[n];
      ClaimMovesKeys(entries[..n], block, taken, given);
      assert e in entries;
      KeysOfSnoc(Unclaimed(entries[..n], taken), e);
      KeysOfSnoc(Claimed(block, entries[..n], taken), e);
      KeysOfSnoc(Unclaimed(entries[..n], taken + given), e);
    }
  }

  lemma KeysOfSnoc(entries: seq<PlanEntry>, e: PlanEntry)
    ensures multiset(KeysOf(entries + [e])) == multiset(KeysOf(entries)) + multiset{e.param.key}
    ensures entries + [] == entries
  {
    assert KeysOf(entries + [e]) == KeysOf(entries) + [e.param.key];
  }

  lemma OneMoreListed(blocks: seq<PlanBlock>, b: PlanBlock, entries: seq<PlanEntry>)
    requires ListedWhole(blocks, entries)
    requires forall e :: e in entries && e.param.key in b.paramKeys ==> Holds(b, e)
    ensures ListedWhole(blocks + [b], entries) && KeyBag(blocks + [b]) == KeyBag(blocks) + multiset(b.paramKeys)
  {
    assert (blocks + [b])[..|blocks|] == blocks;
  }

  lemma {:induction false} KeptPlaces(declared: seq<ReadBlock>, entries: seq<PlanEntry>)
    requires UniqueKeys(entries)
    ensures var (kept, taken) := Kept(declared, entries);
            && KeyBag(kept) + multiset(KeysOf(Unclaimed(entries, taken))) == multiset(KeysOf(entries))
            && ListedWhole(kept, entries)
  {
    if declared == [] {
      var taken: set<string> := {};
      FilterAll(entries, (e: PlanEntry) => e.param.key !in taken);
      assert Unclaimed(entries, taken) == entries;
    } else {
      var n := |declared| - 1;
      var block := declared[n];
      var (kept, taken) := Kept(declared[..n], entries);
      KeptPlaces(declared[..n], entries);
      var claimed := Claimed(block, entries, taken);
      var keys := KeysOf(claimed);
      var given := set key | key in keys;
      ClaimedKeys(entries, block, taken);
      ClaimMovesKeys(entries, block, taken, given);
      if keys == [] {
        assert given == {} && taken + given == taken;
      } else {
        OneMoreListed(kept, DeclaredBlock(block, keys), entries);
      }
    }
  }

  lemma ClaimedKeys(entries: seq<PlanEntry>, block: ReadBlock, taken: set<string>)
    requires UniqueKeys(entries)
    ensures forall e :: e in entries ==>
              (e.param.key in KeysOf(Claimed(block, entries, taken)) <==>
               e.param.key !in taken && EntryFits(e, block.registerType, block.startAddress, block.registerCount))
  {
    var claimed := Claimed(block, entries, taken);
    FilterMembers(entries, (e: PlanEntry) => e.param.key !in taken
      && EntryFits(e, block.registerType, block.startAddress, block.registerCount));
    forall e | e in entries
      ensures e.param.key in KeysOf(claimed) <==>
              e.param.key !in taken && EntryFits(e, block.registerType, block.startAddress, block.registerCount)
    {
      if e.param.key in KeysOf(claimed) {
        var i :| 0 <= i < |claimed| && KeysOf(claimed)[i] == e.param.key;
        assert claimed[i] in claimed;
        KeyOwner(entries, claimed[i], e);
      }
      if e in claimed {
        var i :| 0 <= i < |claimed| && claimed[i] == e;
        assert KeysOf(claimed)[i] == e.param.key;
      }
    }
  }

  lemma MergedPlaces(part: seq<PlanEntry>, entries: seq<PlanEntry>, maxGap: int, maxBlock: int)
    requires UniqueKeys(entries) && forall e :: e in part ==> e in entries
    requires Laid(part) && Spanned(part, maxBlock)
    ensures KeyBag(MergedBlocks(part, maxGap, maxBlock)) == multiset(KeysOf(part))
    ensures ListedWhole(MergedBlocks(part, maxGap, maxBlock), entries)
  {
    hide Groups, GroupOk, Holds, KeyBag, UniqueKeys, Laid, Spanned, Flatten;
    var groups := Groups(part, maxGap, maxBlock);
    var blocks := MergedBlocks(part, maxGap, maxBlock);
    assert blocks == BlocksOfGroups(groups);
    GroupsFlatten(part, maxGap, maxBlock);
    GroupsAreOk(part, maxGap, maxBlock);
    KeyBagOfGroups(groups);
    FlattenMembers(groups);
    forall b, e | b in blocks && e in entries && e.param.key in b.paramKeys ensures Holds(b, e) {
      var k :| 0 <= k < |blocks| && blocks[k] == b;
      var i :| 0 <= i < |groups[k]| && KeysOf(groups[k])[i] == e.param.key;
      assert groups[k][i] in groups[k];
      KeyOwner(entries, groups[k][i], e);
      GroupBlockHolds(groups[k], maxGap, maxBlock, e);
    }
  }

  lemma NaivePlaces(entries: seq<PlanEntry>)
    requires UniqueKeys(entries) && WellFormedEntries(entries)
    ensures PlacedOnce(NaiveBlocks(entries), entries)
  {
    KeyBagOfNaive(entries);
    forall b, e | b in NaiveBlocks(entries) && e in entries && e.param.key in b.paramKeys ensures Holds(b, e) {
      var i :| 0 <= i < |entries| && NaiveBlocks(entries)[i] == b;
      assert entries[i] in entries;
      KeyOwner(entries, entries[i], e);
      assert WellFormedEntry(e);
    }
  }

  lemma UnclaimedIsLaid(entries: seq<PlanEntry>, taken: set<string>)
    requires Laid(entries)
    ensures Laid(Unclaimed(entries, taken)) && forall e :: e in Unclaimed(entries, taken) ==> e in entries
  {
    var keep := (e: PlanEntry) => e.param.key !in taken;
    FilterMembers(entries, keep);
    assert Pairwise(entries, Before);
    FilterPairwise(entries, keep, Before);
    assert Unclaimed(entries, taken) == Filter(entries, keep);
    assert Pairwise(Unclaimed(entries, taken), Before);
  }

  lemma SpannedWhenNotTooWide(entries: seq<PlanEntry>, maxBlock: int)
    requires WellFormedEntries(entries) && !TooWide(entries, maxBlock)
    ensures Spanned(entries, maxBlock)
  {
    forall e | e in entries ensures e.end - e.start + 1 == e.words <= maxBlock {
      assert WellFormedEntry(e);
    }
  }

  /** The main result: for unique keys and separate registers every plan that can be built places every param once. */
  lemma PlanPlacesEveryParamOnce(profile: Profile, options: Options)
    requires UniqueKeys(EntriesOf(profile)) && DisjointEntries(EntriesOf(profile))
    requires !Unbuildable(profile, options)
    ensures PlacedOnce(SortBy(BuiltBlocks(profile, options), BlockLe), EntriesOf(profile))
  {
    var entries := EntriesOf(profile);
    var built := BuiltBlocks(profile, options);
    var maxBlock := LimitOf(profile, options);
    EntriesAreOrdered(profile);
    SortedDisjointIsLaid(entries);
    if options.mode == Some(Naive) {
      NaivePlaces(entries);
    } else if UsesDeclared(profile, options) {
      var (kept, taken) := Kept(profile.declared, entries);
      var rest := Unclaimed(entries, taken);
      KeptPlaces(profile.declared, entries);
      UnclaimedIsLaid(entries, taken);
      SpannedWhenNotTooWide(rest, maxBlock);
      MergedPlaces(rest, entries, GapOf(profile, options), maxBlock);
      KeyBagAppend(kept, MergedBlocks(rest, GapOf(profile, options), maxBlock));
    } else {
      SpannedWhenNotTooWide(entries, maxBlock);
      MergedPlaces(entries, entries, GapOf(profile, options), maxBlock);
    }
    KeyBagOfSort(built);
    TextLeIsTotalOrder();
    SortSorts(built, BlockLe);
  }
}
