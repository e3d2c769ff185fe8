/**
Pruning of finished replay runs: which ones a result transaction deletes, told in creation times, and whether the
run it concludes stays.
*/
module ReplayPruning {
  import opened Sequences
  import opened ReplayPairing
  import opened ReplayLifecycle

  function Rank(order: seq<RunId>, id: RunId): nat
    requires id in order
    ensures Rank(order, id) < |order| && order[Rank(order, id)] == id
  {
    if order[0] == id then 0 else 1 + Rank(order[1..], id)
  }

  /** A finished run survives exactly when fewer than `keep` finished runs are listed before it. */
  lemma SurvivesIffRanked(s: Store, order: seq<RunId>, keep: nat, id: RunId)
    requires Listing(s.runs, order) && id in order
    ensures id in Prune(s, order, keep).runs <==> Rank(order, id) < keep
  {
    var r := Rank(order, id);
    if keep <= r {
      assert order[r] in Beyond(order, keep);
    }
  }

  /** Active runs and their rows are not touched. */
  lemma PruneSparesActive(s: Store, order: seq<RunId>, keep: nat, id: RunId)
    requires Listing(s.runs, order) && id in s.runs && IsActive(s.runs[id])
    ensures id in Prune(s, order, keep).runs && Prune(s, order, keep).runs[id] == s.runs[id]
  {
  }

  /** No other run was created at the same time or later. */
  ghost predicate NewestOfAll(runs: Runs, id: RunId) {
    id in runs && forall other :: other in runs && other != id ==> runs[other].createdAt < runs[id].createdAt
  }

  ghost predicate ActiveIsNewest(runs: Runs) {
    forall id :: id in runs && IsActive(runs[id]) ==> NewestOfAll(runs, id)
  }

  /** Creation times follow the order in which the rows appear. */
  ghost predicate InCreationOrder(s: System, a: Action) {
    a.DoCreate? ==> forall id :: id in s.store.runs ==> s.store.runs[id].createdAt < a.createdAt
  }

  ghost predicate AllInCreationOrder(s: System, actions: seq<Action>) {
    forall i :: 0 <= i < |actions| ==> InCreationOrder(RunFrom(s, actions[..i]), actions[i])
  }

  lemma StepKeepsNewest(s: System, a: Action)
    requires Inv(s) && Legal(s, a) && InCreationOrder(s, a) && ActiveIsNewest(s.store.runs)
    ensures ActiveIsNewest(Step(s, a).store.runs)
  {
    hide AddEpisodes, Listing, Beyond, Oldest;
    if a.DoClaim? {
      OldestIsQueued(s.store.runs, a.id);
    }
  }

  lemma {:induction false} TheActiveRunIsTheNewest(actions: seq<Action>)
    requires AllLegal(EMPTY, actions) && AllInCreationOrder(EMPTY, actions)
    ensures ActiveIsNewest(RunFrom(EMPTY, actions).store.runs)
  {
    hide Step, Legal, InCreationOrder;
    if actions != [] {
      var n := |actions| - 1;
      assert forall i :: 0 <= i < n ==> actions[..n][..i] == actions[..i];
      TheActiveRunIsTheNewest(actions[..n]);
      OneActiveRun(actions[..n]);
      StepKeepsNewest(RunFrom(EMPTY, actions[..n]), actions[n]);
    }
  }

  lemma NewestIsListedFirst(runs: Runs, order: seq<RunId>, id: RunId)
    requires Listing(runs, order) && NewestOfAll(runs, id) && IsFinished(runs[id])
    ensures order != [] && order[0] == id
  {
    assert id in order;
    assert order[0] in order;
    var k :| 0 <= k < |order| && order[k] == id;
    assert k > 0 ==> runs[order[0]].createdAt >= runs[order[k]].createdAt;
  }

  /**
   The result of a run is kept: when creation times follow creation order, the run an instance concludes is
   still there after the pruning of the same transaction, done, and with exactly the episodes handed over.
   */
  lemma ConcludedRunIsKept(
    actions: seq<Action>, id: RunId, instance: Instance, progress: Progress, rows: seq<Episode>, order: seq<RunId>,
    keep: nat, now: int)
    requires AllLegal(EMPTY, actions) && AllInCreationOrder(EMPTY, actions) && keep >= 1
    requires var s := RunFrom(EMPTY, actions);
             Owns(s.store.runs, id, instance) && Legal(s, DoConclude(id, instance, progress, rows, order, keep, now))
    ensures var after := Concluded(RunFrom(EMPTY, actions).store, id, instance, progress, rows, order, keep, now);
            && id in after.runs && after.runs[id].status.Done? && after.runs[id].progress == progress
            && (forall i :: 0 <= i < |rows| ==> IdOf(id, rows[i]) in after.episodes)
            && (forall e :: e in after.episodes && e.run == id ==>
                  after.episodes[e] in rows && IdOf(id, after.episodes[e]) == e)
  {
    hide Step, AddEpisodes, RunFrom, AllLegal, AllInCreationOrder, Listing;
    var s := RunFrom(EMPTY, actions);
    OneActiveRun(actions);
    TheActiveRunIsTheNewest(actions);
    var finished := Finish(s.store.runs, id, instance, progress, now);
    NewestIsListedFirst(finished, order, id);
    AddedEpisodes(s.store.episodes, id, rows);
    FirstIsKept(finished, order, keep, id);
  }

  lemma FirstIsKept(runs: Runs, order: seq<RunId>, keep: nat, id: RunId)
    requires Listing(runs, order) && order != [] && order[0] == id && keep >= 1
    ensures id !in Beyond(order, keep)
  {
  }

  // ---------------------------------------------------------------- told in creation times

  /** The other finished runs that are not older. */
  ghost function Rivals(runs: Runs, id: RunId): set<RunId>
    requires id in runs
  {
    set other | other in runs && other != id && IsFinished(runs[other]) && runs[other].createdAt >= runs[id].createdAt
  }

  /** The other finished runs that are younger. */
  ghost function Younger(runs: Runs, id: RunId): set<RunId>
    requires id in runs
  {
    set other | other in runs && other != id && IsFinished(runs[other]) && runs[other].createdAt > runs[id].createdAt
  }

  ghost function Elements(order: seq<RunId>): set<RunId> {
    set x | x in order
  }

  lemma {:induction false} DistinctElements(order: seq<RunId>)
    requires Distinct(order)
    ensures |Elements(order)| == |order|
  {
    if order != [] {
      var n := |order| - 1;
      DistinctElements(order[..n]);
      assert order == order[..n] + [order[n]];
      assert Elements(order) == Elements(order[..n]) + {order[n]};
      assert order[n] !in order[..n];
    }
  }

  lemma SmallerSet(a: set<RunId>, b: set<RunId>)
    requires a <= b
    ensures |a| <= |b|
  {
    assert b == a + (b - a);
  }

  lemma BeforeAreRivals(runs: Runs, order: seq<RunId>, r: nat)
    requires Listing(runs, order) && r < |order| && order[r] in runs
    ensures Elements(order[..r]) <= Rivals(runs, order[r])
  {
    forall x | x in Elements(order[..r]) ensures x in Rivals(runs, order[r]) {
      var i :| 0 <= i < r && order[i] == x;
      assert order[i] in order && order[i] != order[r];
    }
  }

  lemma YoungerAreBefore(runs: Runs, order: seq<RunId>, r: nat)
    requires Listing(runs, order) && r < |order| && order[r] in runs
    ensures Younger(runs, order[r]) <= Elements(order[..r])
  {
    assert forall j :: r < j < |order| ==> runs[order[r]].createdAt >= runs[order[j]].createdAt;
    forall x | x in Younger(runs, order[r]) ensures x in Elements(order[..r]) {
      assert x in order;
      var i :| 0 <= i < |order| && order[i] == x;
      assert i != r;
      assert order[..r][i] == x;
    }
  }

  /** In a listing the runs before a run are rivals of it, and every younger run is before it. */
  lemma RankIsBetween(runs: Runs, order: seq<RunId>, id: RunId)
    requires Listing(runs, order) && id in order && id in runs
    ensures |Younger(runs, id)| <= Rank(order, id) <= |Rivals(runs, id)|
  {
    hide Listing, Rivals, Younger, Elements;
    var r := Rank(order, id);
    ListingIsDistinct(runs, order);
    DistinctElements(order[..r]);
    BeforeAreRivals(runs, order, r);
    YoungerAreBefore(runs, order, r);
    SmallerSet(Elements(order[..r]), Rivals(runs, id));
    SmallerSet(Younger(runs, id), Elements(order[..r]));
  }

  lemma ListingIsDistinct(runs: Runs, order: seq<RunId>)
    requires Listing(runs, order)
    ensures Distinct(order)
  {
  }

  ghost predicate NewestFirstOf(runs: Runs, ids: set<RunId>, order: seq<RunId>) {
    && Distinct(order) && (forall x :: x in order <==> x in ids)
    && (forall i, j :: 0 <= i < j < |order| ==>
          order[i] in runs && order[j] in runs && runs[order[i]].createdAt >= runs[order[j]].createdAt)
  }

  lemma {:induction false} CanBeListed(runs: Runs, ids: set<RunId>) returns (order: seq<RunId>)
    requires ids <= runs.Keys
    ensures NewestFirstOf(runs, ids, order)
    decreases |ids|
  {
    if ids == {} {
      order := [];
    } else {
      var oldest := OldestOf(runs, ids);
      var front := CanBeListed(runs, ids - {oldest});
      order := front + [oldest];
      forall i, j | 0 <= i < j < |order|
        ensures order[i] != order[j] && order[i] in runs && order[j] in runs
        ensures runs[order[i]].createdAt >= runs[order[j]].createdAt
      {
        assert order[i] in front;
      }
    }
  }

  lemma {:induction false} OldestOf(runs: Runs, ids: set<RunId>) returns (oldest: RunId)
    requires ids <= runs.Keys && ids != {}
    ensures oldest in ids && forall x :: x in ids ==> runs[oldest].createdAt <= runs[x].createdAt
    decreases |ids|
  {
    var some :| some in ids;
    var rest := ids - {some};
    oldest := some;
    if rest != {} {
      var other := OldestOf(runs, rest);
      if runs[other].createdAt < runs[some].createdAt {
        oldest := other;
      }
    }
    forall x | x in ids ensures runs[oldest].createdAt <= runs[x].createdAt {
      assert x == some || x in rest;
    }
  }

  /** Among equals the statement may list this run last. */
  lemma UnluckyListing(runs: Runs, id: RunId) returns (order: seq<RunId>)
    requires id in runs && IsFinished(runs[id])
    ensures Listing(runs, order) && id in order && Rank(order, id) == |Rivals(runs, id)|
  {
    hide Rank;
    var older := set other | other in runs && other != id && IsFinished(runs[other]) && other !in Rivals(runs, id);
    var first := CanBeListed(runs, Rivals(runs, id));
    var last := CanBeListed(runs, older);
    order := first + [id] + last;
    JoinedListing(runs, id, first, last, older);
    DistinctElements(first);
    assert Elements(first) == Rivals(runs, id);
    assert order[|first|] == id;
    RankAt(order, |first|);
  }

  lemma JoinedListing(runs: Runs, id: RunId, first: seq<RunId>, last: seq<RunId>, older: set<RunId>)
    requires id in runs && IsFinished(runs[id])
    requires older == set other | other in runs && other != id && IsFinished(runs[other]) && other !in Rivals(runs, id)
    requires NewestFirstOf(runs, Rivals(runs, id), first) && NewestFirstOf(runs, older, last)
    ensures Listing(runs, first + [id] + last)
  {
    var order := first + [id] + last;
    forall x | x in first ensures x in runs && IsFinished(runs[x]) && runs[x].createdAt >= runs[id].createdAt {
      assert x in Rivals(runs, id);
    }
    forall x | x in last ensures x in runs && IsFinished(runs[x]) && runs[x].createdAt < runs[id].createdAt {
      assert x in older;
    }
    forall i, j | 0 <= i < j < |order|
      ensures order[i] in runs && order[j] in runs
      ensures order[i] != order[j] && runs[order[i]].createdAt >= runs[order[j]].createdAt
    {
      Placed(first, id, last, i);
      Placed(first, id, last, j);
      assert order[i] in first ==> order[i] in Rivals(runs, id) && order[i] !in older && order[i] != id;
    }
    forall x ensures x in order <==> x in runs && IsFinished(runs[x]) {
      assert x in order <==> x in first || x == id || x in last;
      assert x in first <==> x in Rivals(runs, id);
      assert x in last <==> x in older;
    }
  }

  lemma Placed(first: seq<RunId>, id: RunId, last: seq<RunId>, i: nat)
    requires i < |first + [id] + last|
    ensures var x := (first + [id] + last)[i];
            if i < |first| then x == first[i] && x in first
            else if i == |first| then x == id
            else x == last[i - |first| - 1] && x in last
  {
  }

  lemma {:induction false} RankAt(order: seq<RunId>, i: nat)
    requires Distinct(order) && i < |order|
    ensures order[i] in order && Rank(order, order[i]) == i
  {
    if order[0] == order[i] {
      assert i == 0;
    } else {
      RankAt(order[1..], i - 1);
    }
  }

  /**
   A finished run survives pruning, however the statement lists runs of one creation time, exactly when fewer than
   `keep` other finished runs are as young as it or younger.
   */
  lemma SurvivesIffFewRivals(s: Store, keep: nat, id: RunId)
    requires id in s.runs && IsFinished(s.runs[id])
    ensures (forall order :: Listing(s.runs, order) ==> id in Prune(s, order, keep).runs) <==>
            |Rivals(s.runs, id)| < keep
  {
    hide Prune, Rank, Rivals, Younger;
    forall order | Listing(s.runs, order) && |Rivals(s.runs, id)| < keep ensures id in Prune(s, order, keep).runs {
      assert id in order;
      RankIsBetween(s.runs, order, id);
      SurvivesIffRanked(s, order, keep, id);
    }
    var order := UnluckyListing(s.runs, id);
    SurvivesIffRanked(s, order, keep, id);
  }

  /** It is deleted, however runs are listed, when `keep` finished runs are younger. */
  lemma DeletedByTheYounger(s: Store, order: seq<RunId>, keep: nat, id: RunId)
    requires id in s.runs && IsFinished(s.runs[id]) && Listing(s.runs, order) && |Younger(s.runs, id)| >= keep
    ensures id !in Prune(s, order, keep).runs
  {
    hide Prune, Rank, Younger;
    assert id in order;
    RankIsBetween(s.runs, order, id);
    SurvivesIffRanked(s, order, keep, id);
  }

  // ---------------------------------------------------------------- a clock that runs back

  /**
   Time of the i-th run of the history below. Each waits out the ten seconds the gateway allows at least before it
   gives up a queued run nobody takes.
   */
  function Slot(i: nat): int {
    20_000 * i
  }

  const EXPIRED := "expired"

  /** n runs, each queued, never taken and failed ten seconds later. */
  function Abandoned(n: nat): seq<Action> {
    if n == 0 then []
    else
      Abandoned(n - 1) + [DoCreate(n - 1, Slot(n - 1))]
      + [DoFailExpired(Slot(n - 1) + 1, EXPIRED, Slot(n - 1) + 10_001)]
  }

  ghost predicate AbandonedRows(runs: Runs, n: nat) {
    && (forall id: RunId :: id in runs <==> id < n)
    && (forall id :: id in runs ==> runs[id].status.Failed? && runs[id].createdAt == Slot(id))
  }

  lemma AbandonedStep(s: System, n: nat)
    requires AbandonedRows(s.store.runs, n) && (forall id: RunId :: id in s.issued <==> id < n)
    ensures var created := DoCreate(n, Slot(n));
            var expired := DoFailExpired(Slot(n) + 1, EXPIRED, Slot(n) + 10_001);
            && Legal(s, created) && Legal(Step(s, created), expired)
            && AbandonedRows(Step(Step(s, created), expired).store.runs, n + 1)
            && (forall id: RunId :: id in Step(Step(s, created), expired).issued <==> id < n + 1)
  {
    hide Slot;
    var runs := Create(s.store.runs, n, Slot(n));
    assert !AnyActive(s.store.runs);
    assert runs == s.store.runs[n := NewRow(Slot(n))];
  }

  lemma {:induction false} AbandonedRuns(n: nat)
    ensures AllLegal(EMPTY, Abandoned(n))
    ensures AbandonedRows(RunFrom(EMPTY, Abandoned(n)).store.runs, n)
    ensures forall id: RunId :: id in RunFrom(EMPTY, Abandoned(n)).issued <==> id < n
  {
    hide Legal, Step, AbandonedRows, RunFrom, AllLegal, Slot;
    if n == 0 {
      NoActions();
    } else {
      AbandonedRuns(n - 1);
      var before := Abandoned(n - 1);
      var created := DoCreate(n - 1, Slot(n - 1));
      AbandonedStep(RunFrom(EMPTY, before), n - 1);
      var s1 := OneMore(before, created);
      var s2 := OneMore(before + [created], DoFailExpired(Slot(n - 1) + 1, EXPIRED, Slot(n - 1) + 10_001));
    }
  }

  lemma NoActions()
    ensures AllLegal(EMPTY, []) && RunFrom(EMPTY, []) == EMPTY && AbandonedRows(EMPTY.store.runs, 0)
  {
  }

  /** The rows after one more run, created by a clock that was set back before all of them, and claimed. */
  lemma LateRow(s: System, n: nat, instance: Instance, now: int)
    requires AbandonedRows(s.store.runs, n) && (forall id: RunId :: id in s.issued <==> id < n)
    ensures var created := DoCreate(n, -1);
            var claimed := DoClaim(n, instance, now);
            var runs := Step(Step(s, created), claimed).store.runs;
            && Legal(s, created) && Legal(Step(s, created), claimed)
            && Owns(runs, n, instance) && Younger(Finish(runs, n, instance, NO_PROGRESS, now), n) == UpTo(n)
  {
    var runs := Create(s.store.runs, n, -1);
    assert !AnyActive(s.store.runs);
    assert runs == s.store.runs[n := NewRow(-1)];
    assert Oldest(runs, n);
    var claimed := Claim(runs, n, instance, now);
    var finished := Finish(claimed, n, instance, NO_PROGRESS, now);
    forall id: RunId ensures id in Younger(finished, n) <==> id in UpTo(n) {
      assert id < n ==> id in s.store.runs && s.store.runs[id].createdAt == Slot(id) >= 0;
    }
  }

  ghost function UpTo(n: nat): (ids: set<RunId>)
    ensures forall id: RunId :: id in ids <==> id < n
    ensures |ids| == n
  {
    if n == 0 then {} else UpTo(n - 1) + {n - 1}
  }

  /**
   Creation times are readings of the database's clock. If it is set back while `keep` finished runs are kept, the
   run an instance then concludes is deleted by its own transaction, however that lists the runs.
   */
  lemma ClockSetBackLosesTheResult(keep: nat, instance: Instance, now: int, order: seq<RunId>)
    ensures var before := Abandoned(keep) + [DoCreate(keep, -1)] + [DoClaim(keep, instance, now)];
            var conclude := DoConclude(keep, instance, NO_PROGRESS, [], order, keep, now);
            && AllLegal(EMPTY, before)
            && Owns(RunFrom(EMPTY, before).store.runs, keep, instance)
            && (Legal(RunFrom(EMPTY, before), conclude) ==>
                  keep !in Step(RunFrom(EMPTY, before), conclude).store.runs)
  {
    hide AbandonedRows, Listing, Younger, UpTo, Prune, AllLegal, RunFrom;
    AbandonedRuns(keep);
    var history := Abandoned(keep);
    var created := DoCreate(keep, -1);
    LateRow(RunFrom(EMPTY, history), keep, instance, now);
    var s1 := OneMore(history, created);
    var s2 := OneMore(history + [created], DoClaim(keep, instance, now));
    var done := s2.store.(runs := Finish(s2.store.runs, keep, instance, NO_PROGRESS, now));
    if Listing(done.runs, order) {
      DeletedByTheYounger(InsertEpisodes(done, keep, instance, []), order, keep, keep);
    }
  }

  lemma OneMore(actions: seq<Action>, a: Action) returns (s: System)
    requires AllLegal(EMPTY, actions) && Legal(RunFrom(EMPTY, actions), a)
    ensures AllLegal(EMPTY, actions + [a]) && s == RunFrom(EMPTY, actions + [a]) == Step(RunFrom(EMPTY, actions), a)
  {
    hide Legal, Step;
    var more := actions + [a];
    assert more[..|actions|] == actions;
    forall i | 0 <= i < |more| ensures Legal(RunFrom(EMPTY, more[..i]), more[i]) {
      if i < |actions| {
        assert more[..i] == actions[..i];
      }
    }
    s := RunFrom(EMPTY, more);
  }
}
