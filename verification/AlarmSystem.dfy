/**
The processors' memory and the episode table over whole runs: batches of frames, redeliveries and hand-overs in any
order.
*/
module AlarmSystem {
  import opened Wrappers
  import opened Sequences
  import opened AlarmEngine
  import opened AlarmRuns
  import opened AlarmTable
  import opened AlarmAgreement
  import opened AlarmAdoption

  /** The processor's memory, the table, the last frame time of each device and all transitions ever made. */
  datatype System = System(memory: Memory, table: Table, clock: map<string, int>, log: seq<Transition>)

  /**
   A batch of new frames, a batch of transitions written once more, or devices handed over to a processor that
   forgets what it knew of them and restores the open episodes it loaded.
   */
  datatype Action =
    | Handle(frames: seq<Cycle>)
    | Again(ts: seq<Transition>)
    | HandOver(deviceCodes: set<string>, episodes: seq<Row>)

  /** Evaluating a batch frame by frame, before anything is written. */
  ghost function Evaluate(memory: Memory, frames: seq<Cycle>): (Memory, seq<Transition>) {
    if frames == [] then (memory, [])
    else
      var n := |frames| - 1;
      var (mid, ts) := Evaluate(memory, frames[..n]);
      (AfterFrame(mid, frames[n]), ts + MadeBy(mid, frames[n]))
  }

  function ClockAfter(clock: map<string, int>, frames: seq<Cycle>): map<string, int> {
    if frames == [] then clock
    else
      var n := |frames| - 1;
      ClockAfter(clock, frames[..n])[frames[n].deviceCode := frames[n].nowMs]
  }

  predicate Later(clock: map<string, int>, cycle: Cycle) {
    cycle.deviceCode in clock ==> clock[cycle.deviceCode] < cycle.nowMs
  }

  /** Frame times of a device strictly increase. */
  ghost predicate InTime(clock: map<string, int>, frames: seq<Cycle>) {
    forall i :: 0 <= i < |frames| ==> Plain(frames[i].deviceCode) && Later(ClockAfter(clock, frames[..i]), frames[i])
  }

  ghost function Step(iso: Stamp, s: System, action: Action): System {
    match action
    case Handle(frames) =>
      var (memory, ts) := Evaluate(s.memory, frames);
      System(memory, ApplyBatch(iso, s.table, ts), ClockAfter(s.clock, frames), s.log + ts)
    case Again(ts) => s.(table := ApplyBatch(iso, s.table, ts))
    case HandOver(deviceCodes, episodes) => s.(memory := (s.memory - deviceCodes) + Restored(deviceCodes, episodes))
  }

  ghost predicate Legal(s: System, action: Action) {
    match action
    case Handle(frames) => InTime(s.clock, frames)
    case Again(ts) => forall t :: t in ts ==> t in s.log
    case HandOver(deviceCodes, episodes) => Loaded(s.table, deviceCodes, episodes)
  }

  const NOTHING := System(map[], map[], map[], [])

  ghost function Run(iso: Stamp, actions: seq<Action>): System {
    if actions == [] then NOTHING
    else Step(iso, Run(iso, actions[..|actions| - 1]), actions[|actions| - 1])
  }

  ghost predicate AllLegal(iso: Stamp, actions: seq<Action>) {
    forall i :: 0 <= i < |actions| ==> Legal(Run(iso, actions[..i]), actions[i])
  }

  /** Nothing in the table or the log is younger than the clock of its device. */
  ghost predicate Timed(table: Table, clock: map<string, int>, log: seq<Transition>) {
    && (forall key :: key in table ==>
          table[key].deviceCode in clock && table[key].raisedAt <= clock[table[key].deviceCode])
    && (forall c :: c in log && IsClear(c) ==> c.deviceCode in clock && c.raisedAt <= clock[c.deviceCode])
  }

  ghost predicate Good(iso: Stamp, s: System) {
    Sound(iso, s.memory, s.table, s.log) && Timed(s.table, s.clock, s.log)
  }

  lemma FrameKeepsGood(iso: Stamp, s: System, cycle: Cycle)
    requires GoodStamp(iso) && Good(iso, s) && Plain(cycle.deviceCode) && Later(s.clock, cycle)
    ensures var ts := MadeBy(s.memory, cycle);
            Good(iso, System(AfterFrame(s.memory, cycle), ApplyAll(iso, s.table, ts),
                             s.clock[cycle.deviceCode := cycle.nowMs], s.log + ts))
  {
    hide GoodStamp, Agrees, Keyed, AllSettled, NoReraise, SlotState, StatesAfter, TransitionsAfter, KeysOfCycle,
        ApplyAll;
    var state := DeviceOf(s.memory, cycle.deviceCode);
    var keys := KeysOfCycle(cycle, state);
    var ts := MadeBy(s.memory, cycle);
    assert Distinct(keys) by { KeysAreDistinct(cycle, state); }
    FrameKeepsSound(iso, s.memory, s.table, s.log, cycle, keys);
    ThroughAllIsTheFrame(s.memory, cycle);
    AgreementIsBySlot(iso, Through(s.memory, cycle, keys), AfterFrame(s.memory, cycle), ApplyAll(iso, s.table, ts));
    TransitionsAreOfTheDevice(cycle, state, keys);
  }

  lemma {:induction false} FramesKeepGood(iso: Stamp, s: System, frames: seq<Cycle>)
    requires GoodStamp(iso) && Good(iso, s) && InTime(s.clock, frames)
    ensures var (memory, ts) := Evaluate(s.memory, frames);
            Good(iso, System(memory, ApplyAll(iso, s.table, ts), ClockAfter(s.clock, frames), s.log + ts))
  {
    hide GoodStamp, Good, AfterFrame, MadeBy, Plain, Later, ApplyAll;
    if frames == [] {
      assert s.log + [] == s.log;
      NothingApplied(iso, s.table);
    } else {
      var n := |frames| - 1;
      assert forall i :: 0 <= i < n ==> frames[..n][..i] == frames[..i];
      FramesKeepGood(iso, s, frames[..n]);
      var (mid, ts) := Evaluate(s.memory, frames[..n]);
      var at := System(mid, ApplyAll(iso, s.table, ts), ClockAfter(s.clock, frames[..n]), s.log + ts);
      FrameKeepsGood(iso, at, frames[n]);
      ApplyConcat(iso, s.table, ts, MadeBy(mid, frames[n]));
      assert s.log + ts + MadeBy(mid, frames[n]) == s.log + (ts + MadeBy(mid, frames[n]));
    }
  }

  lemma NoReraiseInPart(iso: Stamp, log: seq<Transition>, ts: seq<Transition>)
    requires NoReraise(iso, log + ts)
    ensures NoReraise(iso, ts)
  {
    hide KeyOf;
    assert forall i :: 0 <= i < |ts| ==> (log + ts)[|log| + i] == ts[i];
    forall i, j | 0 <= i < j < |ts| && IsClear(ts[i]) && IsRaise(ts[j]) ensures KeyOf(iso, ts[i]) != KeyOf(iso, ts[j]) {
      assert (log + ts)[|log| + i] == ts[i] && (log + ts)[|log| + j] == ts[j];
    }
  }

  /** Writing any transitions of the past again, in any selection and at any moment, changes nothing. */
  lemma RedeliveryChangesNothing(iso: Stamp, s: System, ts: seq<Transition>)
    requires Good(iso, s) && forall t :: t in ts ==> t in s.log
    ensures Step(iso, s, Again(ts)) == s
  {
    hide Agrees, Keyed, NoReraise, Settled;
    SettledChangesNothing(iso, s.table, ts);
  }

  lemma StepKeepsGood(iso: Stamp, s: System, action: Action)
    requires GoodStamp(iso) && Good(iso, s) && Legal(s, action)
    ensures Good(iso, Step(iso, s, action))
  {
    match action
    case Handle(frames) =>
      hide GoodStamp, Agrees, Keyed, AllSettled, ApplyAll, ApplyBatch, Evaluate, ClockAfter, NoReraise, InTime,
          Timed, PlainLog;
      FramesKeepGood(iso, s, frames);
      var (memory, ts) := Evaluate(s.memory, frames);
      NoReraiseInPart(iso, s.log, ts);
      BatchIsInOrder(iso, s.table, ts);
    case Again(ts) =>
      hide Good;
      RedeliveryChangesNothing(iso, s, ts);
    case HandOver(deviceCodes, episodes) =>
      hide Agrees, Keyed, AllSettled, NoReraise, Timed, PlainLog, Loaded, Restored;
      HandOverAgrees(iso, s.memory, s.table, deviceCodes, episodes);
  }

  lemma NothingIsGood(iso: Stamp)
    ensures Good(iso, NOTHING)
  {
  }

  /**
   Whatever is handled, written twice or handed over: the open rows are exactly the raised metrics, with equal
   mode, boundary, severity, threshold and raise time.
   */
  lemma {:induction false} TableAgreesWithEngine(iso: Stamp, actions: seq<Action>)
    requires GoodStamp(iso) && AllLegal(iso, actions)
    ensures Good(iso, Run(iso, actions))
    ensures Agrees(iso, Run(iso, actions).memory, Run(iso, actions).table)
  {
    hide GoodStamp, Agrees, Keyed, AllSettled, NoReraise, Step, Legal;
    NothingIsGood(iso);
    if actions != [] {
      var n := |actions| - 1;
      assert forall i :: 0 <= i < n ==> actions[..n][..i] == actions[..i];
      TableAgreesWithEngine(iso, actions[..n]);
      StepKeepsGood(iso, Run(iso, actions[..n]), actions[n]);
    }
  }

  lemma StepWritesLog(iso: Stamp, s: System, action: Action)
    requires GoodStamp(iso) && Good(iso, s) && Legal(s, action) && s.table == ApplyAll(iso, map[], s.log)
    ensures Step(iso, s, action).table == ApplyAll(iso, map[], Step(iso, s, action).log)
  {
    hide GoodStamp, Agrees, Keyed, AllSettled, ApplyAll, ApplyBatch, Evaluate, ClockAfter, NoReraise, InTime, Timed;
    match action
    case Handle(frames) =>
      FramesKeepGood(iso, s, frames);
      var ts := Evaluate(s.memory, frames).1;
      NoReraiseInPart(iso, s.log, ts);
      BatchIsInOrder(iso, s.table, ts);
      ApplyConcat(iso, map[], s.log, ts);
    case Again(ts) => RedeliveryChangesNothing(iso, s, ts);
    case HandOver(_, _) =>
  }

  /** The table is what the engine's transitions, each written once and in order, make of an empty one. */
  lemma {:induction false} TableIsItsLog(iso: Stamp, actions: seq<Action>)
    requires GoodStamp(iso) && AllLegal(iso, actions)
    ensures Run(iso, actions).table == ApplyAll(iso, map[], Run(iso, actions).log)
    ensures forall key :: key in Run(iso, actions).table ==>
              RowTells(iso, key, Run(iso, actions).table[key], Run(iso, actions).log)
  {
    hide GoodStamp, Good, Step, Legal, ApplyAll, RowTells;
    if actions == [] {
      NothingApplied(iso, map[]);
    } else {
      var n := |actions| - 1;
      assert forall i :: 0 <= i < n ==> actions[..n][..i] == actions[..i];
      TableIsItsLog(iso, actions[..n]);
      TableAgreesWithEngine(iso, actions[..n]);
      StepWritesLog(iso, Run(iso, actions[..n]), actions[n]);
    }
    var s := Run(iso, actions);
    forall key | key in s.table ensures RowTells(iso, key, s.table[key], s.log) {
      RowsComeFromTransitions(iso, s.log, key);
    }
  }

  predicate IsFirst(action: Action) {
    !action.Again?
  }

  /** Redeliveries are invisible: the system ends where it would have ended without them. */
  lemma {:induction false} RedeliveriesAreInvisible(iso: Stamp, actions: seq<Action>)
    requires GoodStamp(iso) && AllLegal(iso, actions)
    ensures Run(iso, actions) == Run(iso, Filter(actions, IsFirst))
  {
    hide GoodStamp, Good, Agrees, Step, Filter, Run, AllLegal, IsFirst;
    if actions == [] {
      NoActionIsFirst();
    } else {
      var n := |actions| - 1;
      var front, last := actions[..n], actions[n];
      assert actions == front + [last];
      LegalFront(iso, front, last);
      RedeliveriesAreInvisible(iso, front);
      TableAgreesWithEngine(iso, front);
      FilterAppend(front, [last], IsFirst);
      FirstOfOne(last);
      RunOneMore(iso, front, last);
      var kept := Filter(front, IsFirst);
      if last.Again? {
        RedeliveryChangesNothing(iso, Run(iso, front), last.ts);
        assert kept + [] == kept;
      } else {
        RunOneMore(iso, kept, last);
      }
    }
  }

  lemma NoActionIsFirst()
    ensures Filter([], IsFirst) == []
  {
  }

  lemma FirstOfOne(action: Action)
    ensures Filter([action], IsFirst) == if action.Again? then [] else [action]
  {
    assert [action][..0] == [];
  }

  lemma RunOneMore(iso: Stamp, actions: seq<Action>, last: Action)
    ensures Run(iso, actions + [last]) == Step(iso, Run(iso, actions), last)
  {
    assert (actions + [last])[..|actions|] == actions;
  }

  lemma LegalFront(iso: Stamp, front: seq<Action>, last: Action)
    requires AllLegal(iso, front + [last])
    ensures AllLegal(iso, front) && Legal(Run(iso, front), last)
  {
    hide Legal, Step;
    var all := front + [last];
    assert all[..|front|] == front && all[|front|] == last;
    forall i | 0 <= i < |front| ensures Legal(Run(iso, front[..i]), front[i]) {
      assert all[..i] == front[..i] && all[i] == front[i];
    }
  }

  /** One batch: evaluate every frame in memory, then write all raises and all clears in one transaction. */
  method HandleBatch(store: EpisodeTable, memory: Memory, frames: seq<Cycle>)
    returns (after: Memory, outcomes: seq<Transition>)
    modifies store
    ensures (after, outcomes) == Evaluate(memory, frames)
    ensures store.rows == ApplyBatch(store.iso, old(store.rows), outcomes)
  {
    hide ApplyAll, KeysOfCycle;
    after, outcomes := memory, [];
    for i := 0 to |frames|
      invariant (after, outcomes) == Evaluate(memory, frames[..i])
      invariant store.rows == old(store.rows)
    {
      assert frames[..i + 1][..i] == frames[..i];
      var deviceCode := frames[i].deviceCode;
      var prevState := if deviceCode in after then after[deviceCode] else map[];
      var transitions, state := EvaluateDeviceAlarms(frames[i], prevState);
      after := after[deviceCode := state];
      outcomes := outcomes + transitions;
    }
    assert frames[..|frames|] == frames;
    FilterMembers(outcomes, IsRaise);
    FilterMembers(outcomes, IsClear);
    var _ := store.InsertAlarmEvents(Filter(outcomes, IsRaise));
    var _ := store.ClearAlarmEvents(Filter(outcomes, IsClear));
  }

  // ---------------------------------------------------------------- why frame times must rise

  const OVERHEAT := AlarmRule("d", "m", Cooling, None, Some(1.0), 0.0, 1, Critical, true)

  function FrameAt(value: real, nowMs: int): Cycle {
    Cycle("d", Cooling, map["m" := MetricSample(Some(value), Quality.Good)], [OVERHEAT], nowMs)
  }

  /**
   Three frames of one device with the same time: raised, cleared, raised again. The second raise finds its key
   taken, so the metric is raised in memory while its only row is closed.
   */
  lemma EqualTimesDisagree(iso: Stamp)
    ensures var frames := [FrameAt(2.0, 0), FrameAt(0.0, 0), FrameAt(2.0, 0)];
            var ts := MetricRun(frames, "m", IDLE).1;
            && MetricRun(frames, "m", IDLE).0.Raised?
            && OpenKeys(ApplyAll(iso, map[], ts)) == {}
  {
    hide StepMetric, MetricRun, ApplyAll, FrameAt, ApplyBatch;
    var a, b := FrameAt(2.0, 0), FrameAt(0.0, 0);
    assert [a, b, a] == [a, b] + [a] && [a, b] == [a] + [b] && [a] == [] + [a];
    StepsOfTheThree();
    NoCycles();
    OneMoreCycle([], a, "m");
    OneMoreCycle([a], b, "m");
    OneMoreCycle([a, b], a, "m");
    assert MetricRun([a, b, a], "m", IDLE).1 == [FIRST_RAISE, ITS_CLEAR, FIRST_RAISE];
    ApplyOne(iso, map[], FIRST_RAISE);
    ApplyConcat(iso, map[], [FIRST_RAISE], [ITS_CLEAR]);
    ApplyConcat(iso, map[], [FIRST_RAISE, ITS_CLEAR], [FIRST_RAISE]);
    assert [FIRST_RAISE] + [ITS_CLEAR] == [FIRST_RAISE, ITS_CLEAR];
    assert [FIRST_RAISE, ITS_CLEAR] + [FIRST_RAISE] == [FIRST_RAISE, ITS_CLEAR, FIRST_RAISE];
    RaiseClearRaise(iso);
  }

  const FIRST_RAISE := Transition("d", "m", Cooling, ToRaised, Critical, Some(2.0), 1.0, AtMax, 0, 0)
  const ITS_CLEAR := Transition("d", "m", Cooling, ToCleared, Critical, Some(0.0), 1.0, AtMax, 0, 0)

  lemma NoCycles()
    ensures MetricRun([], "m", IDLE) == (IDLE, [])
  {
  }

  lemma StepsOfTheThree()
    ensures var raised := Raised(AtMax, Critical, 1.0, 0, Cooling);
            && StepMetric(FrameAt(2.0, 0), "m", IDLE) == (raised, Some(FIRST_RAISE))
            && StepMetric(FrameAt(0.0, 0), "m", raised) == (IDLE, Some(ITS_CLEAR))
  {
    hide RuleOf;
    OneRule();
  }

  lemma RaiseClearRaise(iso: Stamp)
    ensures var table := Apply(iso, map[], FIRST_RAISE);
            var cleared := ApplyAll(iso, table, [ITS_CLEAR]);
            OpenKeys(ApplyAll(iso, cleared, [FIRST_RAISE])) == {}
  {
    hide EpisodeKey;
    var key := KeyOf(iso, FIRST_RAISE);
    assert KeyOf(iso, ITS_CLEAR) == key;
    var table := Apply(iso, map[], FIRST_RAISE);
    assert table == map[key := RowOf(FIRST_RAISE)];
    ApplyOne(iso, table, ITS_CLEAR);
    var cleared := ApplyAll(iso, table, [ITS_CLEAR]);
    assert cleared == map[key := RowOf(FIRST_RAISE).(clearedAt := Some(0), clearedValue := Some(0.0))];
    ApplyOne(iso, cleared, FIRST_RAISE);
  }

  lemma OneMoreCycle(cycles: seq<Cycle>, c: Cycle, m: string)
    ensures var (state, log) := MetricRun(cycles, m, IDLE);
            var step := StepMetric(c, m, state);
            MetricRun(cycles + [c], m, IDLE).0 == step.0 && MetricRun(cycles + [c], m, IDLE).1 == log + AsSeq(step.1)
  {
    assert (cycles + [c])[..|cycles|] == cycles;
  }

  lemma OneRule()
    ensures forall value: real, nowMs: int :: RuleOf(FrameAt(value, nowMs), "m") == Some(OVERHEAT)
  {
    forall value: real, nowMs: int ensures RuleOf(FrameAt(value, nowMs), "m") == Some(OVERHEAT) {
      assert [OVERHEAT][..0] == [];
    }
  }
}
