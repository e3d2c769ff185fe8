/**
The greedy merge is optimal. Among all ways to cover every param whole with blocks of at most
`maxBlock` registers in which any `maxGap + 1` consecutive registers hold a needed one, none has
fewer blocks, and the greedy blocks are themselves one of those ways.
*/
module PlanOptimality {
  import opened Sequences
  import opened RegisterTypes
  import opened Profiles
  import opened ReadPlan
  import opened Arithmetic

  /** `a` lies wholly before `b`. */
  predicate Before(a: PlanEntry, b: PlanEntry) {
    Rank(a.registerType) < Rank(b.registerType) || (a.registerType == b.registerType && a.end < b.start)
  }

  ghost predicate Laid(entries: seq<PlanEntry>) {
    && (forall e :: e in entries ==> e.start <= e.end)
    && (forall i, j :: 0 <= i < j < |entries| ==> Before(entries[i], entries[j]))
  }

  ghost predicate NeededWithin(entries: seq<PlanEntry>, registerType: RegisterType, address: int, reach: int) {
    exists x :: address <= x <= address + reach && Needed(entries, registerType, x)
  }

  /** A request the planner could send: within the limit, and never more than `maxGap` registers in vain in a row. */
  ghost predicate Admissible(block: PlanBlock, entries: seq<PlanEntry>, maxGap: nat, maxBlock: int) {
    && block.registerCount <= maxBlock
    && forall a :: block.startAddress <= a && a + maxGap < block.startAddress + block.registerCount
         ==> NeededWithin(entries, block.registerType, a, maxGap)
  }

  ghost predicate CoversWhole(blocks: seq<PlanBlock>, entries: seq<PlanEntry>) {
    forall e :: e in entries ==> exists i :: 0 <= i < |blocks| && Holds(blocks[i], e)
  }

  lemma SortedDisjointIsLaid(entries: seq<PlanEntry>)
    requires WellFormedEntries(entries) && SortedBy(entries, EntryLe) && DisjointEntries(entries)
    ensures Laid(entries)
  {
    forall i, j | 0 <= i < j < |entries| ensures Before(entries[i], entries[j]) {
      assert EntryLe(entries[i], entries[j]) && !Share(entries[i], entries[j]);
      assert entries[i] in entries && entries[j] in entries;
    }
  }

  // ---------------------------------------------------------------- the shape of the groups

  ghost predicate GroupOk(group: Group, maxGap: int, maxBlock: int) {
    && Laid(group)
    && (forall e :: e in group ==> e.registerType == group[0].registerType)
    && EndOf(group) == group[|group| - 1].end
    && EndOf(group) - group[0].start + 1 <= maxBlock
    && (forall i :: 0 < i < |group| ==> group[i].start - group[i - 1].end - 1 <= maxGap)
  }

  ghost predicate GroupsOk(groups: seq<Group>, maxGap: int, maxBlock: int) {
    && (forall k :: 0 <= k < |groups| ==> GroupOk(groups[k], maxGap, maxBlock))
    && (forall k :: 0 <= k < |groups| - 1 ==> Parted(groups, k, maxGap, maxBlock))
  }

  /** The next group starts with a param that did not join this one. */
  ghost predicate Parted(groups: seq<Group>, k: nat, maxGap: int, maxBlock: int)
    requires k + 1 < |groups|
  {
    !Joins(groups[k], groups[k + 1][0], maxGap, maxBlock)
  }

  function Flatten(groups: seq<Group>): seq<PlanEntry> {
    if groups == [] then [] else Flatten(groups[..|groups| - 1]) + groups[|groups| - 1]
  }

  lemma FlattenOneMore(groups: seq<Group>, last: Group)
    ensures Flatten(groups + [last]) == Flatten(groups) + last
  {
    assert (groups + [last])[..|groups|] == groups;
  }

  lemma {:induction false} GroupsFlatten(entries: seq<PlanEntry>, maxGap: int, maxBlock: int)
    ensures Flatten(Groups(entries, maxGap, maxBlock)) == entries
  {
    hide Joins, Flatten, Groups;
    if entries != [] {
      var n := |entries| - 1;
      var e := entries[n];
      GroupsFlatten(entries[..n], maxGap, maxBlock);
      var before := Groups(entries[..n], maxGap, maxBlock);
      assert entries == entries[..n] + [e];
      GroupsStep(entries[..n], e, maxGap, maxBlock);
      if before != [] && Joins(before[|before| - 1], e, maxGap, maxBlock) {
        var m := |before| - 1;
        assert before == before[..m] + [before[m]];
        FlattenOneMore(before[..m], before[m]);
        FlattenOneMore(before[..m], before[m] + [e]);
      } else {
        FlattenOneMore(before, [e]);
      }
    } else {
      NothingGrouped(maxGap, maxBlock);
    }
  }

  lemma NothingGrouped(maxGap: int, maxBlock: int)
    ensures Flatten(Groups([], maxGap, maxBlock)) == []
  {
  }

  lemma {:induction false} FlattenMembers(groups: seq<Group>)
    ensures forall k, e :: 0 <= k < |groups| && e in groups[k] ==> e in Flatten(groups)
    ensures forall e :: e in Flatten(groups) ==> exists k :: 0 <= k < |groups| && e in groups[k]
  {
    if groups != [] {
      var n := |groups| - 1;
      FlattenMembers(groups[..n]);
      forall e | e in Flatten(groups) ensures exists k :: 0 <= k < |groups| && e in groups[k] {
        assert Flatten(groups) == Flatten(groups[..n]) + groups[n];
        if e in groups[n] {
        } else {
          var front := groups[..n];
          var k :| 0 <= k < |front| && e in front[k];
          assert e in groups[k];
        }
      }
    }
  }

  /** Entries of an earlier group lie before entries of a later one. */
  lemma {:induction false} GroupsInOrder(groups: seq<Group>, k: nat, j: nat, x: PlanEntry, y: PlanEntry)
    requires Laid(Flatten(groups)) && k < j < |groups| && x in groups[k] && y in groups[j]
    ensures Before(x, y)
  {
    hide Before, Flatten;
    var n := |groups| - 1;
    var front := Flatten(groups[..n]);
    var all := Flatten(groups);
    FlattenOneMore(groups[..n], groups[n]);
    assert groups == groups[..n] + [groups[n]];
    assert all == front + groups[n];
    assert forall i :: 0 <= i < |front| ==> front[i] == all[i];
    if j == n {
      FlattenMembers(groups[..n]);
      assert x in groups[..n][k] && groups[..n][k] == groups[k];
      assert x in front;
      var a :| 0 <= a < |front| && front[a] == x;
      var b :| 0 <= b < |groups[n]| && groups[n][b] == y;
      assert all[a] == x && all[|front| + b] == y;
    } else {
      GroupsInOrder(groups[..n], k, j, x, y);
    }
  }

  lemma LaidFront(entries: seq<PlanEntry>)
    requires Laid(entries) && entries != []
    ensures Laid(entries[..|entries| - 1])
    ensures entries[|entries| - 1].start <= entries[|entries| - 1].end
    ensures forall i :: 0 <= i < |entries| - 1 ==> Before(entries[i], entries[|entries| - 1])
  {
    assert entries[|entries| - 1] in entries;
  }

  ghost predicate Spanned(entries: seq<PlanEntry>, maxBlock: int) {
    forall e :: e in entries ==> e.end - e.start + 1 == e.words <= maxBlock
  }

  lemma {:induction false} GroupsAreOk(entries: seq<PlanEntry>, maxGap: int, maxBlock: int)
    requires Laid(entries) && Spanned(entries, maxBlock)
    ensures GroupsOk(Groups(entries, maxGap, maxBlock), maxGap, maxBlock)
  {
    if entries != [] {
      var n := |entries| - 1;
      var e := entries[n];
      LaidFront(entries);
      GroupsAreOk(entries[..n], maxGap, maxBlock);
      GroupsFlatten(entries[..n], maxGap, maxBlock);
      assert e in entries;
      AddToGroups(Groups(entries[..n], maxGap, maxBlock), e, maxGap, maxBlock);
    }
  }

  lemma AddToGroups(before: seq<Group>, e: PlanEntry, maxGap: int, maxBlock: int)
    requires GroupsOk(before, maxGap, maxBlock)
    requires e.start <= e.end && e.end - e.start + 1 <= maxBlock
    requires forall x :: x in Flatten(before) ==> Before(x, e)
    ensures GroupsOk(
              if before != [] && Joins(before[|before| - 1], e, maxGap, maxBlock)
              then before[..|before| - 1] + [before[|before| - 1] + [e]]
              else before + [[e]],
              maxGap, maxBlock)
  {
    FlattenMembers(before);
    var m := |before| - 1;
    if before != [] && Joins(before[m], e, maxGap, maxBlock) {
      var grown: Group := before[m] + [e];
      GrowGroup(before[m], e, maxGap, maxBlock);
      var after := before[..m] + [grown];
      forall k | 0 <= k < |after| - 1 ensures Parted(after, k, maxGap, maxBlock) {
        assert Parted(before, k, maxGap, maxBlock);
      }
    } else {
      var single: Group := [e];
      assert GroupOk(single, maxGap, maxBlock);
      var after := before + [single];
      forall k | 0 <= k < |after| - 1 ensures Parted(after, k, maxGap, maxBlock) {
        assert k == m || Parted(before, k, maxGap, maxBlock);
      }
    }
  }

  lemma GrowGroup(group: Group, e: PlanEntry, maxGap: int, maxBlock: int)
    requires GroupOk(group, maxGap, maxBlock) && Joins(group, e, maxGap, maxBlock)
    requires e.start <= e.end && forall x :: x in group ==> Before(x, e)
    ensures GroupOk(group + [e], maxGap, maxBlock)
  {
    var last := group[|group| - 1];
    assert last in group && Before(last, e);
    GrownGroup(group, e);
    assert group[0] in group;
    LaidWithOneMore(group, e);
  }

  lemma LaidWithOneMore(entries: seq<PlanEntry>, e: PlanEntry)
    requires Laid(entries) && e.start <= e.end && forall x :: x in entries ==> Before(x, e)
    ensures Laid(entries + [e])
  {
    hide Before;
  }

  // ---------------------------------------------------------------- no block serves two groups

  lemma CutBetween(group: Group, next: PlanEntry, maxGap: int, maxBlock: int)
    requires GroupOk(group, maxGap, maxBlock) && !Joins(group, next, maxGap, maxBlock)
    requires Before(group[|group| - 1], next)
    ensures group[0].registerType == next.registerType ==>
              && group[0].start <= EndOf(group) < next.start
              && (next.start - EndOf(group) - 1 > maxGap || next.end - group[0].start + 1 > maxBlock)
  {
    var last := group[|group| - 1];
    assert last in group && group[0] in group;
    assert |group| == 1 || Before(group[0], last);
  }

  /** Why a group ended: the next param would overflow its block, or lies behind too wide a gap. */
  lemma WhyCut(entries: seq<PlanEntry>, maxGap: int, maxBlock: int, k: nat)
    requires Laid(entries) && Spanned(entries, maxBlock)
    requires k + 1 < |Groups(entries, maxGap, maxBlock)|
    ensures var first := Groups(entries, maxGap, maxBlock)[k][0];
            var next := Groups(entries, maxGap, maxBlock)[k + 1][0];
            var end := EndOf(Groups(entries, maxGap, maxBlock)[k]);
            first.registerType == next.registerType ==>
              first.start <= end < next.start <= next.end
              && (next.start - end - 1 > maxGap || next.end - first.start + 1 > maxBlock)
  {
    var groups := Groups(entries, maxGap, maxBlock);
    GroupsFlatten(entries, maxGap, maxBlock);
    GroupsAreOk(entries, maxGap, maxBlock);
    var last, next := groups[k][|groups[k]| - 1], groups[k + 1][0];
    assert last in groups[k] && next in groups[k + 1];
    GroupsInOrder(groups, k, k + 1, last, next);
    assert Parted(groups, k, maxGap, maxBlock);
    CutBetween(groups[k], next, maxGap, maxBlock);
    FlattenMembers(groups);
    assert next in entries;
  }

  /** A later group starts no earlier, and ends no earlier, than the group next to this one. */
  lemma LaterGroup(groups: seq<Group>, k: nat, j: nat)
    requires Laid(Flatten(groups)) && k < j < |groups|
    ensures var first, next, far := groups[k][0], groups[k + 1][0], groups[j][0];
            first.registerType == far.registerType ==>
              next.registerType == far.registerType && next.end <= far.end
  {
    hide Flatten, Before;
    var first, next, far := groups[k][0], groups[k + 1][0], groups[j][0];
    FlattenMembers(groups);
    assert first in groups[k] && next in groups[k + 1] && far in groups[j];
    GroupsInOrder(groups, k, k + 1, first, next);
    if j != k + 1 {
      GroupsInOrder(groups, k + 1, j, next, far);
      assert far in Flatten(groups);
      Between(first, next, far);
    }
  }

  lemma Between(first: PlanEntry, next: PlanEntry, far: PlanEntry)
    requires Before(first, next) && Before(next, far) && far.start <= far.end
    ensures first.registerType == far.registerType ==> next.registerType == far.registerType && next.end <= far.end
  {
  }

  /** No admissible request holds the first params of two different greedy blocks. */
  lemma NoBlockServesTwoGroups(
    entries: seq<PlanEntry>, maxGap: nat, maxBlock: int, k: nat, j: nat, block: PlanBlock)
    requires Laid(entries) && Spanned(entries, maxBlock)
    requires k < j < |Groups(entries, maxGap, maxBlock)|
    requires Holds(block, Groups(entries, maxGap, maxBlock)[k][0])
    requires Admissible(block, entries, maxGap, maxBlock)
    ensures !Holds(block, Groups(entries, maxGap, maxBlock)[j][0])
  {
    var groups := Groups(entries, maxGap, maxBlock);
    GroupsFlatten(entries, maxGap, maxBlock);
    WhyCut(entries, maxGap, maxBlock, k);
    LaterGroup(groups, k, j);
    var end, next := EndOf(groups[k]), groups[k + 1][0];
    if next.registerType == block.registerType && next.start - end - 1 > maxGap {
      NothingBetween(entries, maxGap, maxBlock, k);
      assert !NeededWithin(entries, block.registerType, end + 1, maxGap);
    }
  }

  /** Between the end of a group and the start of the next there is no register of that type in use. */
  lemma NothingBetween(entries: seq<PlanEntry>, maxGap: int, maxBlock: int, k: nat)
    requires Laid(entries) && Spanned(entries, maxBlock)
    requires k + 1 < |Groups(entries, maxGap, maxBlock)|
    requires var groups := Groups(entries, maxGap, maxBlock);
             groups[k][0].registerType == groups[k + 1][0].registerType
    ensures var groups := Groups(entries, maxGap, maxBlock);
            forall x :: EndOf(groups[k]) < x < groups[k + 1][0].start ==>
              !Needed(entries, groups[k][0].registerType, x)
  {
    var groups := Groups(entries, maxGap, maxBlock);
    GroupsFlatten(entries, maxGap, maxBlock);
    GroupsAreOk(entries, maxGap, maxBlock);
    FlattenMembers(groups);
    var last, next := groups[k][|groups[k]| - 1], groups[k + 1][0];
    assert GroupOk(groups[k], maxGap, maxBlock);
    assert last in groups[k] && next in groups[k + 1];
    forall e | e in entries && e.registerType == next.registerType
      ensures e.end <= last.end || next.start <= e.start
    {
      var m :| 0 <= m < |groups| && e in groups[m];
      BesideTheCut(groups, k, m, e);
    }
  }

  lemma BesideTheCut(groups: seq<Group>, k: nat, m: nat, e: PlanEntry)
    requires Laid(Flatten(groups)) && k + 1 < |groups| && m < |groups| && e in groups[m]
    requires Laid(groups[k]) && Laid(groups[k + 1])
    requires groups[k][|groups[k]| - 1].registerType == e.registerType == groups[k + 1][0].registerType
    ensures e.end <= groups[k][|groups[k]| - 1].end || groups[k + 1][0].start <= e.start
  {
    var last, next := groups[k][|groups[k]| - 1], groups[k + 1][0];
    assert last in groups[k] && next in groups[k + 1];
    if m < k {
      GroupsInOrder(groups, m, k, e, last);
    } else if m == k {
      var i :| 0 <= i < |groups[k]| && groups[k][i] == e;
      assert i == |groups[k]| - 1 || Before(e, last);
    } else if m == k + 1 {
      var i :| 0 <= i < |groups[m]| && groups[m][i] == e;
      assert i == 0 || Before(next, e);
    } else {
      GroupsInOrder(groups, k + 1, m, next, e);
    }
  }

  ghost function ServingBlock(blocks: seq<PlanBlock>, e: PlanEntry): (i: nat)
    requires exists i :: 0 <= i < |blocks| && Holds(blocks[i], e)
    ensures i < |blocks| && Holds(blocks[i], e)
  {
    var i :| 0 <= i < |blocks| && Holds(blocks[i], e); i
  }

  /** Optimality: no admissible way to read every param whole sends fewer requests than the greedy merge. */
  lemma MergeIsMinimal(entries: seq<PlanEntry>, maxGap: nat, maxBlock: int, rival: seq<PlanBlock>)
    requires WellFormedEntries(entries) && SortedBy(entries, EntryLe) && DisjointEntries(entries)
    requires !TooWide(entries, maxBlock)
    requires CoversWhole(rival, entries)
    requires forall b :: b in rival ==> Admissible(b, entries, maxGap, maxBlock)
    ensures |MergedBlocks(entries, maxGap, maxBlock)| <= |rival|
  {
    hide Groups, Flatten, SortedBy, DisjointEntries, Admissible, Laid;
    SortedDisjointIsLaid(entries);
    var groups := Groups(entries, maxGap, maxBlock);
    GroupsFlatten(entries, maxGap, maxBlock);
    FlattenMembers(groups);
    forall k | 0 <= k < |groups| ensures exists i :: 0 <= i < |rival| && Holds(rival[i], groups[k][0]) {
      assert groups[k][0] in groups[k];
      assert groups[k][0] in entries;
    }
    var choices := seq(|groups|, k requires 0 <= k < |groups| => ServingBlock(rival, groups[k][0]));
    forall k, j | 0 <= k < j < |groups| ensures choices[k] != choices[j] {
      var block := rival[choices[k]];
      NoBlockServesTwoGroups(entries, maxGap, maxBlock, k, j, block);
    }
    Pigeonhole(choices, |rival|);
  }

  // ---------------------------------------------------------------- the greedy blocks are admissible

  lemma {:induction false} GroupIsDense(group: Group, maxGap: nat, maxBlock: int, entries: seq<PlanEntry>, a: int)
    requires GroupOk(group, maxGap, maxBlock) && group[0].start <= a <= EndOf(group)
    requires forall e :: e in group ==> e in entries
    ensures NeededWithin(entries, group[0].registerType, a, maxGap)
  {
    var n := |group| - 1;
    var e := group[n];
    assert e in group;
    if n == 0 || a > group[n - 1].end {
      var x := Max(a, e.start);
      assert Needed(entries, group[0].registerType, x);
    } else {
      var front: Group := group[..n];
      assert front[|front| - 1] == group[n - 1];
      assert Laid(front) && EndOf(front) == group[n - 1].end by {
        assert Before(group[n - 1], group[n]);
        EndOfLaid(front);
      }
      assert group[n - 1] in group;
      assert Before(group[n - 1], e);
      GroupIsDense(front, maxGap, maxBlock, entries, a);
    }
  }

  lemma {:induction false} EndOfLaid(group: Group)
    requires Laid(group) && forall e :: e in group ==> e.registerType == group[0].registerType
    ensures EndOf(group) == group[|group| - 1].end
  {
    var n := |group| - 1;
    if n > 0 {
      var front: Group := group[..n];
      assert front[0] == group[0];
      EndOfLaid(front);
      assert Before(group[n - 1], group[n]);
      assert group[n - 1] in group && group[n] in group;
    }
  }

  /** The greedy blocks cover every param whole and are admissible, so the minimum above is attained. */
  lemma MergeIsAdmissible(entries: seq<PlanEntry>, maxGap: nat, maxBlock: int)
    requires WellFormedEntries(entries) && SortedBy(entries, EntryLe) && DisjointEntries(entries)
    requires !TooWide(entries, maxBlock)
    ensures CoversWhole(MergedBlocks(entries, maxGap, maxBlock), entries)
    ensures forall b :: b in MergedBlocks(entries, maxGap, maxBlock) ==> Admissible(b, entries, maxGap, maxBlock)
  {
    hide Groups, Flatten, SortedBy, DisjointEntries, Admissible, Laid, Holds, BlockOfDraft, DraftOf, GroupOk;
    SortedDisjointIsLaid(entries);
    var groups := Groups(entries, maxGap, maxBlock);
    var blocks := MergedBlocks(entries, maxGap, maxBlock);
    GroupsFlatten(entries, maxGap, maxBlock);
    GroupsAreOk(entries, maxGap, maxBlock);
    FlattenMembers(groups);
    forall e | e in entries ensures exists k :: 0 <= k < |blocks| && Holds(blocks[k], e) {
      var k :| 0 <= k < |groups| && e in groups[k];
      GroupBlockHolds(groups[k], maxGap, maxBlock, e);
      assert Holds(blocks[k], e);
    }
    forall b | b in blocks ensures Admissible(b, entries, maxGap, maxBlock) {
      var k :| 0 <= k < |blocks| && blocks[k] == b;
      GroupBlockAdmissible(groups[k], maxGap, maxBlock, entries);
    }
  }

  lemma GroupBlockAdmissible(group: Group, maxGap: nat, maxBlock: int, entries: seq<PlanEntry>)
    requires GroupOk(group, maxGap, maxBlock) && forall e :: e in group ==> e in entries
    ensures Admissible(BlockOfDraft(DraftOf(group)), entries, maxGap, maxBlock)
  {
    var b := BlockOfDraft(DraftOf(group));
    forall a | b.startAddress <= a && a + maxGap < b.startAddress + b.registerCount
      ensures NeededWithin(entries, b.registerType, a, maxGap)
    {
      GroupIsDense(group, maxGap, maxBlock, entries, a);
    }
  }

  lemma GroupBlockHolds(group: Group, maxGap: int, maxBlock: int, e: PlanEntry)
    requires GroupOk(group, maxGap, maxBlock) && e in group
    ensures Holds(BlockOfDraft(DraftOf(group)), e)
  {
    var i :| 0 <= i < |group| && group[i] == e;
    var last := group[|group| - 1];
    assert group[0] in group && last in group;
    assert i == 0 || Before(group[0], e);
    assert i == |group| - 1 || Before(e, last);
  }

  /** With the default gap of zero the merge reads no register in vain. */
  lemma {:induction false} ZeroGapWastesNothing(entries: seq<PlanEntry>, maxBlock: int)
    requires WellFormedEntries(entries) && SortedBy(entries, EntryLe) && DisjointEntries(entries)
    requires !TooWide(entries, maxBlock)
    ensures WastedRegisters(SortBy(MergedBlocks(entries, 0, maxBlock), BlockLe), entries) == 0
  {
    var blocks := MergedBlocks(entries, 0, maxBlock);
    var ordered := SortBy(blocks, BlockLe);
    MergeIsAdmissible(entries, 0, maxBlock);
    TextLeIsTotalOrder();
    SortSorts(blocks, BlockLe);
    forall b | b in ordered ensures Unneeded(b, entries) == {} {
      assert Admissible(b, entries, 0, maxBlock);
      forall a | b.startAddress <= a < b.startAddress + b.registerCount ensures Needed(entries, b.registerType, a) {
        assert NeededWithin(entries, b.registerType, a, 0);
      }
    }
    NothingWasted(ordered, entries);
  }

  lemma {:induction false} NothingWasted(blocks: seq<PlanBlock>, entries: seq<PlanEntry>)
    requires forall b :: b in blocks ==> Unneeded(b, entries) == {}
    ensures WastedRegisters(blocks, entries) == 0
  {
    if blocks != [] {
      NothingWasted(blocks[..|blocks| - 1], entries);
    }
  }
}
