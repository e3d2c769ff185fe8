/**
Replay runs shared by gateways, which queue them, and processors, which carry them out. Every writer is one
guarded statement; a run's result is one transaction of three. Any number of instances may interleave.
*/
module ReplayLifecycle {
  import opened Wrappers
  import opened Sequences
  import opened ReplayPairing

  type RunId = nat
  type Instance = string

  datatype Status = Queued | Running | Done | Failed

  /** Counts of a run and the window it has covered: written together, on every heartbeat and with the result. */
  datatype Progress = Progress(
    offsetsTotal: nat,
    offsetsDone: nat,
    framesMatched: nat,
    framesRejected: nat,
    coveredFrom: Option<int>,
    coveredTo: Option<int>)

  datatype RunRow = RunRow(
    status: Status,
    createdAt: int,
    instanceId: Option<Instance>,
    heartbeatAt: Option<int>,
    startedAt: Option<int>,
    finishedAt: Option<int>,
    progress: Progress,
    groupId: Option<string>,
    error: Option<string>)

  /** Primary key of an episode row; the mode is not part of it. */
  datatype EpisodeId = EpisodeId(run: RunId, variant: Variant, deviceId: int, metricKey: string, raisedAt: int)

  type Runs = map<RunId, RunRow>
  type Episodes = map<EpisodeId, Episode>

  datatype Store = Store(runs: Runs, episodes: Episodes)

  predicate IsActive(row: RunRow) {
    row.status.Queued? || row.status.Running?
  }

  predicate IsFinished(row: RunRow) {
    row.status.Done? || row.status.Failed?
  }

  function IdOf(run: RunId, e: Episode): EpisodeId {
    EpisodeId(run, e.variant, e.key.deviceId, e.key.metricKey, e.raisedAt)
  }

  // ---------------------------------------------------------------- the statements

  const NO_PROGRESS := Progress(0, 0, 0, 0, None, None)

  function NewRow(createdAt: int): RunRow {
    RunRow(Queued, createdAt, None, None, None, None, NO_PROGRESS, None, None)
  }

  predicate AnyActive(runs: Runs) {
    exists id :: id in runs && IsActive(runs[id])
  }

  /** Insert unless the id is taken or the unique index already holds an active run. */
  function Create(runs: Runs, id: RunId, createdAt: int): Runs {
    if id in runs || AnyActive(runs) then runs else runs[id := NewRow(createdAt)]
  }

  predicate Oldest(runs: Runs, id: RunId) {
    && id in runs && runs[id].status.Queued?
    && forall other :: other in runs && runs[other].status.Queued? ==> runs[id].createdAt <= runs[other].createdAt
  }

  function Claim(runs: Runs, id: RunId, instance: Instance, now: int): Runs
    requires id in runs
  {
    runs[id := runs[id].(status := Running, instanceId := Some(instance), heartbeatAt := Some(now),
      startedAt := Some(now))]
  }

  /** The guard shared by progress, result and failure: the run is running and it is this instance's. */
  predicate Owns(runs: Runs, id: RunId, instance: Instance) {
    id in runs && runs[id].status.Running? && runs[id].instanceId == Some(instance)
  }

  function Update(runs: Runs, id: RunId, instance: Instance, progress: Progress, groupId: Option<string>, now: int)
      : Runs
  {
    if Owns(runs, id, instance) then
      runs[id := runs[id].(progress := progress, heartbeatAt := Some(now),
                           groupId := if groupId.Some? then groupId else runs[id].groupId)]
    else runs
  }

  predicate IsStale(row: RunRow, staleBefore: int) {
    row.status.Running? && (row.heartbeatAt.None? || row.heartbeatAt.value < staleBefore)
  }

  predicate IsExpired(row: RunRow, queuedBefore: int) {
    row.status.Queued? && row.createdAt < queuedBefore
  }

  function FailedRow(row: RunRow, error: string, now: int): RunRow {
    row.(status := Failed, error := Some(error), finishedAt := Some(now))
  }

  function FailStale(runs: Runs, staleBefore: int, error: string, now: int): Runs {
    map id | id in runs :: if IsStale(runs[id], staleBefore) then FailedRow(runs[id], error, now) else runs[id]
  }

  function FailExpired(runs: Runs, queuedBefore: int, error: string, now: int): Runs {
    map id | id in runs :: if IsExpired(runs[id], queuedBefore) then FailedRow(runs[id], error, now) else runs[id]
  }

  function Fail(runs: Runs, id: RunId, instance: Instance, error: string, now: int): Runs {
    if Owns(runs, id, instance) then runs[id := FailedRow(runs[id], error, now)] else runs
  }

  function Finish(runs: Runs, id: RunId, instance: Instance, progress: Progress, now: int): Runs {
    if Owns(runs, id, instance)
    then runs[id := runs[id].(status := Done, progress := progress, error := None, finishedAt := Some(now))]
    else runs
  }

  /** The guard of the episode insert: the run is this instance's and has not failed. */
  predicate MayWriteEpisodes(runs: Runs, id: RunId, instance: Instance) {
    id in runs && runs[id].instanceId == Some(instance) && (runs[id].status.Running? || runs[id].status.Done?)
  }

  function AddEpisodes(episodes: Episodes, id: RunId, rows: seq<Episode>): Episodes {
    if rows == [] then episodes
    else
      var before := AddEpisodes(episodes, id, rows[..|rows| - 1]);
      var last := rows[|rows| - 1];
      if IdOf(id, last) in before then before else before[IdOf(id, last) := last]
  }

  function InsertEpisodes(s: Store, id: RunId, instance: Instance, rows: seq<Episode>): Store {
    if MayWriteEpisodes(s.runs, id, instance) then s.(episodes := AddEpisodes(s.episodes, id, rows)) else s
  }

  /** A listing of the finished runs, newest first; equal creation times may come in any order. */
  ghost predicate Listing(runs: Runs, order: seq<RunId>) {
    && (forall id :: id in order <==> id in runs && IsFinished(runs[id]))
    && Distinct(order)
    && (forall i, j :: 0 <= i < j < |order| ==> runs[order[i]].createdAt >= runs[order[j]].createdAt)
  }

  function DropRuns(s: Store, dropped: set<RunId>): Store {
    Store(map id | id in s.runs && id !in dropped :: s.runs[id],
          map e | e in s.episodes && e.run !in dropped :: s.episodes[e])
  }

  function Beyond(order: seq<RunId>, keep: nat): set<RunId> {
    set i | keep <= i < |order| :: order[i]
  }

  /** Deletes the finished runs past the first `keep` of the listing, episodes with them. */
  function Prune(s: Store, order: seq<RunId>, keep: nat): Store {
    DropRuns(s, Beyond(order, keep))
  }

  // ---------------------------------------------------------------- the tables as an object

  class ReplayStore {
    var runs: Runs
    var episodes: Episodes

    ghost function Contents(): Store
      reads this
    {
      Store(runs, episodes)
    }

    constructor ()
      ensures Contents() == Store(map[], map[])
    {
      runs, episodes := map[], map[];
    }

    method CreateReplayRun(id: RunId, createdAt: int) returns (created: bool)
      modifies this
      ensures runs == Create(old(runs), id, createdAt) && episodes == old(episodes)
      ensures created <==> id in runs && id !in old(runs)
    {
      created := id !in runs && !exists other | other in runs :: IsActive(runs[other]);
      if created {
        runs := runs[id := NewRow(createdAt)];
      }
    }

    /** The oldest queued run, or none: also when another session holds its row just now. */
    method ClaimReplayRun(instance: Instance, now: int, locked: set<RunId>) returns (claimed: Option<RunId>)
      modifies this
      ensures episodes == old(episodes)
      ensures claimed.None? ==> runs == old(runs) && forall id :: id in runs && runs[id].status.Queued? ==> id in locked
      ensures claimed.Some? ==>
                && claimed.value !in locked && claimed.value in old(runs) && old(runs)[claimed.value].status.Queued?
                && runs == Claim(old(runs), claimed.value, instance, now)
                && forall id :: id in old(runs) && old(runs)[id].status.Queued? && id !in locked ==>
                     old(runs)[claimed.value].createdAt <= old(runs)[id].createdAt
    {
      claimed := None;
      var left := runs.Keys - locked;
      while left != {}
        invariant left <= runs.Keys - locked
        invariant claimed.Some? ==>
                    claimed.value in runs && claimed.value !in locked && runs[claimed.value].status.Queued?
        invariant forall id :: id in runs && runs[id].status.Queued? && id !in locked && id !in left ==>
                    claimed.Some? && runs[claimed.value].createdAt <= runs[id].createdAt
        decreases left
      {
        var id :| id in left;
        if runs[id].status.Queued? && (claimed.None? || runs[id].createdAt < runs[claimed.value].createdAt) {
          claimed := Some(id);
        }
        left := left - {id};
      }
      if claimed.Some? {
        runs := Claim(runs, claimed.value, instance, now);
      }
    }

    method UpdateReplayProgress(id: RunId, instance: Instance, progress: Progress, groupId: Option<string>, now: int)
      returns (updated: bool)
      modifies this
      ensures runs == Update(old(runs), id, instance, progress, groupId, now) && episodes == old(episodes)
      ensures updated == Owns(old(runs), id, instance)
    {
      updated := Owns(runs, id, instance);
      if updated {
        var row := runs[id];
        runs := runs[id := row.(progress := progress, heartbeatAt := Some(now),
                                groupId := if groupId.Some? then groupId else row.groupId)];
      }
    }

    method FailStaleReplayRuns(staleBefore: int, error: string, now: int) returns (failed: nat)
      modifies this
      ensures runs == FailStale(old(runs), staleBefore, error, now) && episodes == old(episodes)
      ensures failed == |set id | id in old(runs) && IsStale(old(runs)[id], staleBefore)|
    {
      var stale := set id | id in runs && IsStale(runs[id], staleBefore);
      failed := |stale|;
      runs := map id | id in runs :: if id in stale then FailedRow(runs[id], error, now) else runs[id];
    }

    method FailExpiredQueuedReplayRuns(queuedBefore: int, error: string, now: int) returns (failed: nat)
      modifies this
      ensures runs == FailExpired(old(runs), queuedBefore, error, now) && episodes == old(episodes)
      ensures failed == |set id | id in old(runs) && IsExpired(old(runs)[id], queuedBefore)|
    {
      var expired := set id | id in runs && IsExpired(runs[id], queuedBefore);
      failed := |expired|;
      runs := map id | id in runs :: if id in expired then FailedRow(runs[id], error, now) else runs[id];
    }

    method FailReplayRun(id: RunId, instance: Instance, error: string, now: int) returns (failed: bool)
      modifies this
      ensures runs == Fail(old(runs), id, instance, error, now) && episodes == old(episodes)
      ensures failed == Owns(old(runs), id, instance)
    {
      failed := Owns(runs, id, instance);
      if failed {
        runs := runs[id := FailedRow(runs[id], error, now)];
      }
    }

    method FinishReplayRun(id: RunId, instance: Instance, progress: Progress, now: int) returns (finished: bool)
      modifies this
      ensures runs == Finish(old(runs), id, instance, progress, now) && episodes == old(episodes)
      ensures finished == Owns(old(runs), id, instance)
    {
      finished := Owns(runs, id, instance);
      if finished {
        runs := runs[id := runs[id].(status := Done, progress := progress, error := None, finishedAt := Some(now))];
      }
    }

    method InsertReplayEpisodes(id: RunId, instance: Instance, rows: seq<Episode>) returns (inserted: nat)
      modifies this
      ensures Contents() == InsertEpisodes(old(Contents()), id, instance, rows)
      ensures inserted == |episodes| - |old(episodes)|
    {
      inserted := 0;
      if MayWriteEpisodes(runs, id, instance) {
        for i := 0 to |rows|
          invariant runs == old(runs)
          invariant episodes == AddEpisodes(old(episodes), id, rows[..i])
          invariant inserted == |episodes| - |old(episodes)|
        {
          assert rows[..i + 1][..i] == rows[..i];
          var key := IdOf(id, rows[i]);
          if key !in episodes {
            ghost var before := episodes.Keys;
            episodes := episodes[key := rows[i]];
            assert episodes.Keys == before + {key} && |episodes| == |episodes.Keys|;
            inserted := inserted + 1;
          }
        }
        assert rows[..|rows|] == rows;
      }
    }

    method PruneReplayRuns(keep: nat) returns (deleted: nat, ghost order: seq<RunId>)
      modifies this
      ensures Listing(old(runs), order)
      ensures Contents() == Prune(old(Contents()), order, keep)
      ensures deleted == |Beyond(order, keep)|
    {
      var finished := set id | id in runs && IsFinished(runs[id]);
      var listing := NewestFirst(runs, finished);
      var dropped := set i | keep <= i < |listing| :: listing[i];
      order := listing;
      deleted := |dropped|;
      episodes := map e | e in episodes && e.run !in dropped :: episodes[e];
      runs := map id | id in runs && id !in dropped :: runs[id];
    }

    /** The result of a run in one transaction: a run that is not ours rolls it back. */
    method Conclude(id: RunId, instance: Instance, progress: Progress, rows: seq<Episode>, keep: nat, now: int)
      returns (concluded: bool, ghost order: seq<RunId>)
      modifies this
      ensures concluded == Owns(old(runs), id, instance)
      ensures concluded ==> Listing(Finish(old(runs), id, instance, progress, now), order)
      ensures Contents() == if concluded then Concluded(old(Contents()), id, instance, progress, rows, order, keep, now)
                            else old(Contents())
    {
      order := [];
      concluded := FinishReplayRun(id, instance, progress, now);
      if concluded {
        var _ := InsertReplayEpisodes(id, instance, rows);
        var _, listed := PruneReplayRuns(keep);
        order := listed;
      }
    }
  }

  /** Selects the next newest run again and again. */
  method NewestFirst(runs: Runs, ids: set<RunId>) returns (order: seq<RunId>)
    requires ids <= runs.Keys
    ensures Distinct(order) && forall id :: id in order <==> id in ids
    ensures forall i, j :: 0 <= i < j < |order| ==>
              order[i] in runs && order[j] in runs && runs[order[i]].createdAt >= runs[order[j]].createdAt
  {
    order := [];
    var left := ids;
    while left != {}
      invariant left <= ids
      invariant Distinct(order) && forall id :: id in order <==> id in ids && id !in left
      invariant forall i, j :: 0 <= i < j < |order| ==> runs[order[i]].createdAt >= runs[order[j]].createdAt
      invariant forall id, other :: id in order && other in left ==> runs[id].createdAt >= runs[other].createdAt
      decreases left
    {
      var newest := Newest(runs, left);
      order := order + [newest];
      left := left - {newest};
    }
  }

  method Newest(runs: Runs, ids: set<RunId>) returns (newest: RunId)
    requires ids <= runs.Keys && ids != {}
    ensures newest in ids && forall id :: id in ids ==> runs[id].createdAt <= runs[newest].createdAt
  {
    newest :| newest in ids;
    var left := ids - {newest};
    while left != {}
      invariant left <= ids && newest in ids
      invariant forall id :: id in ids && id !in left ==> runs[id].createdAt <= runs[newest].createdAt
      decreases left
    {
      var id :| id in left;
      if runs[id].createdAt > runs[newest].createdAt {
        newest := id;
      }
      left := left - {id};
    }
  }

  /** State after a run's result is committed. */
  function Concluded(
    s: Store, id: RunId, instance: Instance, progress: Progress, rows: seq<Episode>, order: seq<RunId>, keep: nat,
    now: int)
    : Store
  {
    Prune(InsertEpisodes(s.(runs := Finish(s.runs, id, instance, progress, now)), id, instance, rows), order, keep)
  }

  // ---------------------------------------------------------------- interleavings

  datatype Action =
    | DoCreate(id: RunId, createdAt: int)
    | DoClaim(id: RunId, instance: Instance, now: int)
    | DoUpdate(id: RunId, instance: Instance, progress: Progress, groupId: Option<string>, now: int)
    | DoFailStale(staleBefore: int, error: string, now: int)
    | DoFailExpired(queuedBefore: int, error: string, now: int)
    | DoFail(id: RunId, instance: Instance, error: string, now: int)
    | DoConclude(id: RunId, instance: Instance, progress: Progress, rows: seq<Episode>, order: seq<RunId>, keep: nat,
      now: int)

  /** The tables and every id handed out so far: ids are random and never come back. */
  datatype System = System(store: Store, issued: set<RunId>)

  const EMPTY := System(Store(map[], map[]), {})

  /** What an action may assume: a fresh id, a queued run to claim, a true listing to prune by. */
  ghost predicate Legal(s: System, a: Action) {
    match a
    case DoCreate(id, _) => id !in s.issued
    case DoClaim(id, _, _) => Oldest(s.store.runs, id)
    case DoConclude(id, instance, progress, _, order, _, now) =>
      Owns(s.store.runs, id, instance) ==> Listing(Finish(s.store.runs, id, instance, progress, now), order)
    case _ => true
  }

  function Step(s: System, a: Action): System {
    var runs := s.store.runs;
    match a
    case DoCreate(id, createdAt) => System(s.store.(runs := Create(runs, id, createdAt)), s.issued + {id})
    case DoClaim(id, instance, now) =>
      if id in runs then s.(store := s.store.(runs := Claim(runs, id, instance, now))) else s
    case DoUpdate(id, instance, progress, groupId, now) =>
      s.(store := s.store.(runs := Update(runs, id, instance, progress, groupId, now)))
    case DoFailStale(staleBefore, error, now) => s.(store := s.store.(runs := FailStale(runs, staleBefore, error, now)))
    case DoFailExpired(queuedBefore, error, now) =>
      s.(store := s.store.(runs := FailExpired(runs, queuedBefore, error, now)))
    case DoFail(id, instance, error, now) => s.(store := s.store.(runs := Fail(runs, id, instance, error, now)))
    case DoConclude(id, instance, progress, rows, order, keep, now) =>
      if Owns(runs, id, instance)
      then s.(store := Concluded(s.store, id, instance, progress, rows, order, keep, now)) else s
  }

  function RunFrom(s: System, actions: seq<Action>): System {
    if actions == [] then s else Step(RunFrom(s, actions[..|actions| - 1]), actions[|actions| - 1])
  }

  ghost predicate AllLegal(s: System, actions: seq<Action>) {
    forall i :: 0 <= i < |actions| ==> Legal(RunFrom(s, actions[..i]), actions[i])
  }

  ghost predicate OneActive(runs: Runs) {
    forall a, b :: a in runs && b in runs && IsActive(runs[a]) && IsActive(runs[b]) ==> a == b
  }

  /** Episodes belong to runs that are done. */
  ghost predicate EpisodesOfDone(s: Store) {
    forall e :: e in s.episodes ==> e.run in s.runs && s.runs[e.run].status.Done?
  }

  ghost predicate Inv(s: System) {
    && OneActive(s.store.runs) && EpisodesOfDone(s.store)
    && (forall id :: id in s.store.runs ==> id in s.issued)
  }

  lemma {:induction false} AddedEpisodes(episodes: Episodes, id: RunId, rows: seq<Episode>)
    ensures forall e :: e in episodes ==>
              e in AddEpisodes(episodes, id, rows) && AddEpisodes(episodes, id, rows)[e] == episodes[e]
    ensures forall e :: e in AddEpisodes(episodes, id, rows) ==> e in episodes || e.run == id
    ensures forall i :: 0 <= i < |rows| ==> IdOf(id, rows[i]) in AddEpisodes(episodes, id, rows)
    ensures forall e :: e in AddEpisodes(episodes, id, rows) && e !in episodes ==>
              AddEpisodes(episodes, id, rows)[e] in rows && IdOf(id, AddEpisodes(episodes, id, rows)[e]) == e
  {
    if rows != [] {
      var n := |rows| - 1;
      AddedEpisodes(episodes, id, rows[..n]);
      assert rows == rows[..n] + [rows[n]];
    }
  }

  lemma StepKeepsInv(s: System, a: Action)
    requires Inv(s) && Legal(s, a)
    ensures Inv(Step(s, a))
  {
    hide AddEpisodes, Listing, Beyond, Oldest;
    if a.DoConclude? {
      AddedEpisodes(s.store.episodes, a.id, a.rows);
    }
    if a.DoClaim? {
      OldestIsQueued(s.store.runs, a.id);
    }
  }

  lemma OldestIsQueued(runs: Runs, id: RunId)
    ensures Oldest(runs, id) ==> id in runs && runs[id].status.Queued?
  {
  }

  /** At most one run is queued or running, and committed episodes exist only for done runs. */
  lemma {:induction false} OneActiveRun(actions: seq<Action>)
    requires AllLegal(EMPTY, actions)
    ensures Inv(RunFrom(EMPTY, actions))
  {
    hide Step, Legal, Inv;
    NothingYet();
    if actions != [] {
      var n := |actions| - 1;
      assert forall i :: 0 <= i < n ==> actions[..n][..i] == actions[..i];
      OneActiveRun(actions[..n]);
      StepKeepsInv(RunFrom(EMPTY, actions[..n]), actions[n]);
    }
  }

  lemma NothingYet()
    ensures Inv(EMPTY)
  {
  }

  // ---------------------------------------------------------------- finished runs never change

  ghost predicate SameEpisodes(a: Episodes, b: Episodes, id: RunId) {
    forall e: EpisodeId :: e.run == id ==> (e in a <==> e in b) && (e in a && e in b ==> a[e] == b[e])
  }

  /** A finished run is either still there, word for word and with the same episodes, or gone with all of them. */
  ghost predicate UnchangedOrGone(before: Store, after: Store, id: RunId)
    requires id in before.runs
  {
    if id in after.runs then after.runs[id] == before.runs[id] && SameEpisodes(before.episodes, after.episodes, id)
    else forall e :: e in after.episodes ==> e.run != id
  }

  lemma StepLeavesFinished(s: System, a: Action, id: RunId)
    requires Inv(s) && Legal(s, a) && id in s.store.runs && IsFinished(s.store.runs[id])
    ensures UnchangedOrGone(s.store, Step(s, a).store, id)
  {
    hide AddEpisodes, Listing, Beyond, Oldest;
    if a.DoConclude? {
      AddedEpisodes(s.store.episodes, a.id, a.rows);
    }
    if a.DoClaim? {
      OldestIsQueued(s.store.runs, a.id);
    }
  }

  lemma StepLeavesGone(s: System, a: Action, id: RunId)
    requires Inv(s) && Legal(s, a) && id !in s.store.runs && id in s.issued
    ensures id !in Step(s, a).store.runs && id in Step(s, a).issued
  {
    hide AddEpisodes, Listing, Beyond, Oldest;
    if a.DoClaim? {
      OldestIsQueued(s.store.runs, a.id);
    }
  }

  /** Done and failed are final, whatever the other instances go on to do. */
  lemma {:induction false} FinishedRunsNeverChange(s: System, actions: seq<Action>, id: RunId)
    requires Inv(s) && AllLegal(s, actions) && id in s.store.runs && IsFinished(s.store.runs[id])
    ensures Inv(RunFrom(s, actions)) && id in RunFrom(s, actions).issued
    ensures UnchangedOrGone(s.store, RunFrom(s, actions).store, id)
  {
    hide Step, Legal, IsFinished, OneActive;
    if actions != [] {
      var n := |actions| - 1;
      assert forall i :: 0 <= i < n ==> actions[..n][..i] == actions[..i];
      FinishedRunsNeverChange(s, actions[..n], id);
      var mid := RunFrom(s, actions[..n]);
      StepKeepsInv(mid, actions[n]);
      IssuedGrows(mid, actions[n]);
      if id in mid.store.runs {
        StepLeavesFinished(mid, actions[n], id);
      } else {
        StepLeavesGone(mid, actions[n], id);
      }
    }
  }

  lemma IssuedGrows(s: System, a: Action)
    ensures s.issued <= Step(s, a).issued
  {
  }

  /**
   Once a run has failed, for a stale heartbeat or otherwise, no instance can write its progress, its failure,
   its result or a single episode, however the instances interleave from then on.
   */
  lemma FailedRunTakesNoResult(
    s: System, actions: seq<Action>, id: RunId, instance: Instance, rows: seq<Episode>, progress: Progress,
    error: string, now: int)
    requires Inv(s) && AllLegal(s, actions) && id in s.store.runs && s.store.runs[id].status.Failed?
    ensures var later := RunFrom(s, actions).store;
            && !Owns(later.runs, id, instance)
            && Update(later.runs, id, instance, progress, None, now) == later.runs
            && Fail(later.runs, id, instance, error, now) == later.runs
            && Finish(later.runs, id, instance, progress, now) == later.runs
            && InsertEpisodes(later, id, instance, rows) == later
            && (forall e :: e in later.episodes ==> e.run != id)
  {
    hide Step, Legal, OneActive;
    FinishedRunsNeverChange(s, actions, id);
  }

  /** A heartbeat older than the limit fails the run, so its owner loses it. */
  lemma StaleOwnerLosesRun(runs: Runs, id: RunId, instance: Instance, staleBefore: int, error: string, now: int)
    requires Owns(runs, id, instance)
    ensures Owns(FailStale(runs, staleBefore, error, now), id, instance) <==>
            runs[id].heartbeatAt.Some? && runs[id].heartbeatAt.value >= staleBefore
    ensures !Owns(FailStale(runs, staleBefore, error, now), id, instance) ==>
            FailStale(runs, staleBefore, error, now)[id].status.Failed?
  {
  }

  /** A claim or a heartbeat at `now` keeps the run its owner's through every stale check that looks back no further. */
  lemma HeartbeatKeepsRun(
    runs: Runs, id: RunId, instance: Instance, progress: Progress, groupId: Option<string>, now: int, staleBefore: int,
    error: string, at: int)
    requires staleBefore <= now
    ensures Owns(runs, id, instance) ==>
              Owns(FailStale(Update(runs, id, instance, progress, groupId, now), staleBefore, error, at), id, instance)
    ensures id in runs ==> Owns(FailStale(Claim(runs, id, instance, now), staleBefore, error, at), id, instance)
  {
  }

  /** A queued run nobody takes does not hold the stand for ever: once it has expired a new run can be queued. */
  lemma ExpiredQueueFreesTheStand(
    s: System, id: RunId, queuedBefore: int, error: string, now: int, next: RunId, createdAt: int)
    requires Inv(s) && id in s.store.runs && IsExpired(s.store.runs[id], queuedBefore) && next !in s.issued
    ensures !AnyActive(FailExpired(s.store.runs, queuedBefore, error, now))
    ensures next in Create(FailExpired(s.store.runs, queuedBefore, error, now), next, createdAt)
  {
  }

  // ---------------------------------------------------------------- what each statement does to a row

  /** Closed as failed, everything else kept. */
  predicate ClosedAsFailed(row: RunRow, next: RunRow, error: string, now: int) {
    && next.status == Failed && next.error == Some(error) && next.finishedAt == Some(now)
    && next.createdAt == row.createdAt && next.instanceId == row.instanceId && next.heartbeatAt == row.heartbeatAt
    && next.startedAt == row.startedAt && next.progress == row.progress && next.groupId == row.groupId
  }

  predicate IsRunningFor(row: RunRow, instance: Instance) {
    row.status == Running && row.instanceId == Some(instance)
  }

  /** How a row may move in one step, field by field. */
  ghost predicate RowMoves(row: RunRow, next: RunRow, id: RunId, a: Action) {
    match a
    case DoCreate(_, _) => next == row
    case DoClaim(claimed, instance, now) =>
      if claimed != id then next == row
      else
        && row.status == Queued
        && next == RunRow(Running, row.createdAt, Some(instance), Some(now), Some(now), row.finishedAt, row.progress,
                          row.groupId, row.error)
    case DoUpdate(updated, instance, progress, groupId, now) =>
      if updated != id || !IsRunningFor(row, instance) then next == row
      else
        && next.progress == progress && next.heartbeatAt == Some(now)
        && next.groupId == (if groupId == None then row.groupId else groupId)
        && next.status == Running && next.instanceId == Some(instance) && next.createdAt == row.createdAt
        && next.startedAt == row.startedAt && next.finishedAt == row.finishedAt && next.error == row.error
    case DoFailStale(staleBefore, error, now) =>
      if row.status == Running && (row.heartbeatAt == None || row.heartbeatAt.value < staleBefore)
      then ClosedAsFailed(row, next, error, now)
      else next == row
    case DoFailExpired(queuedBefore, error, now) =>
      if row.status == Queued && row.createdAt < queuedBefore then ClosedAsFailed(row, next, error, now)
      else next == row
    case DoFail(failed, instance, error, now) =>
      if failed == id && IsRunningFor(row, instance) then ClosedAsFailed(row, next, error, now) else next == row
    case DoConclude(done, instance, progress, _, _, _, now) =>
      if done != id || !IsRunningFor(row, instance) then next == row
      else
        && next.status == Done && next.progress == progress && next.finishedAt == Some(now) && next.error == None
        && next.createdAt == row.createdAt && next.instanceId == row.instanceId && next.startedAt == row.startedAt
        && next.heartbeatAt == row.heartbeatAt && next.groupId == row.groupId
  }

  /** Every statement moves the rows it is meant for, and only in the fields it is meant for. */
  lemma RowsMoveByTheTable(s: System, a: Action, id: RunId)
    requires Legal(s, a) && id in s.store.runs && id in Step(s, a).store.runs
    ensures RowMoves(s.store.runs[id], Step(s, a).store.runs[id], id, a)
  {
    hide AddEpisodes, Listing, Beyond, Oldest;
    if a.DoClaim? {
      OldestIsQueued(s.store.runs, a.id);
    }
  }

  /** A run is created exactly if its id is new and no run is queued or running; it waits with nothing done yet. */
  lemma CreatedIffFree(runs: Runs, id: RunId, createdAt: int)
    ensures var after := Create(runs, id, createdAt);
            if id !in runs && forall o :: o in runs ==> runs[o].status == Done || runs[o].status == Failed
            then after == runs[id := RunRow(Queued, createdAt, None, None, None, None, Progress(0, 0, 0, 0, None, None),
                                            None, None)]
            else after == runs
  {
  }

  /** Nothing claims the run, and no expiry reaches back to its creation. */
  predicate LetsWait(a: Action, id: RunId, createdAt: int) {
    match a
    case DoClaim(claimed, _, _) => claimed != id
    case DoFailExpired(queuedBefore, _, _) => queuedBefore <= createdAt
    case _ => true
  }

  /** A queued run waits unchanged until it is claimed or has expired, whatever else goes on. */
  lemma {:induction false} QueuedRunWaits(s: System, actions: seq<Action>, id: RunId)
    requires Inv(s) && AllLegal(s, actions) && id in s.store.runs && s.store.runs[id].status == Queued
    requires forall a :: a in actions ==> LetsWait(a, id, s.store.runs[id].createdAt)
    ensures id in RunFrom(s, actions).store.runs && RunFrom(s, actions).store.runs[id] == s.store.runs[id]
  {
    hide Step, Legal, OneActive;
    if actions != [] {
      var n := |actions| - 1;
      assert forall i :: 0 <= i < n ==> actions[..n][..i] == actions[..i];
      QueuedRunWaits(s, actions[..n], id);
      assert actions[n] in actions;
      WaitsOneStep(RunFrom(s, actions[..n]), actions[n], id);
    }
  }

  lemma OnlyFinishedAreListed(runs: Runs, order: seq<RunId>, keep: nat)
    ensures Listing(runs, order) ==> forall id :: id in Beyond(order, keep) ==> id in runs && IsFinished(runs[id])
  {
    forall id | id in Beyond(order, keep) ensures id in order {
      var i :| keep <= i < |order| && order[i] == id;
    }
  }

  lemma WaitsOneStep(s: System, a: Action, id: RunId)
    requires Legal(s, a) && id in s.store.runs && s.store.runs[id].status == Queued
    requires LetsWait(a, id, s.store.runs[id].createdAt)
    ensures id in Step(s, a).store.runs && Step(s, a).store.runs[id] == s.store.runs[id]
  {
    hide AddEpisodes, Oldest, Beyond, Listing;
    if a.DoConclude? {
      OnlyFinishedAreListed(Finish(s.store.runs, a.id, a.instance, a.progress, a.now), a.order, a.keep);
    }
    RowsMoveByTheTable(s, a, id);
  }
}
