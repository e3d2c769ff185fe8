/**
The engine's memory and the episode table side by side: over every run with rising frame times they tell the
same story, and writing any earlier transition again changes nothing.
*/
module AlarmAgreement {
  import opened Wrappers
  import opened Sequences
  import opened AlarmEngine
  import opened AlarmRuns
  import opened AlarmTable

  /** The alarm state of every device a processor looks after. */
  type Memory = map<string, DeviceState>

  function DeviceOf(memory: Memory, deviceCode: string): DeviceState {
    if deviceCode in memory then memory[deviceCode] else map[]
  }

  function SlotState(memory: Memory, deviceCode: string, metricKey: string): MetricState {
    PrevOf(DeviceOf(memory, deviceCode), metricKey)
  }

  function SetSlot(memory: Memory, deviceCode: string, metricKey: string, state: MetricState): Memory {
    memory[deviceCode := DeviceOf(memory, deviceCode)[metricKey := state]]
  }

  predicate Plain(deviceCode: string) {
    SEPARATOR !in deviceCode
  }

  // ---------------------------------------------------------------- agreement

  predicate IsOpen(table: Table, key: string) {
    key in table && table[key].clearedAt.None?
  }

  predicate Repeats(row: Row, state: MetricState) {
    state == Raised(row.boundary, row.severity, row.threshold, row.raisedAt, row.mode)
  }

  /** The open row of a raised metric. */
  predicate HasRow(iso: Stamp, table: Table, deviceCode: string, metricKey: string, state: MetricState)
    requires state.Raised?
  {
    var key := EpisodeKey(iso, deviceCode, metricKey, state.mode, state.raisedAt);
    IsOpen(table, key) && table[key].deviceCode == deviceCode && table[key].metricKey == metricKey
  }

  /** Every open row repeats its metric's raised state, and every raised metric has its open row. */
  ghost predicate Agrees(iso: Stamp, memory: Memory, table: Table) {
    && (forall key :: IsOpen(table, key) ==>
          Repeats(table[key], SlotState(memory, table[key].deviceCode, table[key].metricKey)))
    && (forall d, m :: SlotState(memory, d, m).Raised? ==> HasRow(iso, table, d, m, SlotState(memory, d, m)))
  }

  ghost predicate Keyed(iso: Stamp, table: Table) {
    forall key :: key in table ==> key == KeyOfRow(iso, table[key]) && Plain(table[key].deviceCode)
  }

  ghost predicate SameSlots(a: Memory, b: Memory) {
    forall d, m :: SlotState(a, d, m) == SlotState(b, d, m)
  }

  lemma AgreementIsBySlot(iso: Stamp, a: Memory, b: Memory, table: Table)
    requires SameSlots(a, b) && Agrees(iso, a, table)
    ensures Agrees(iso, b, table)
  {
    hide SlotState, HasRow, Repeats;
    forall d, m | SlotState(b, d, m).Raised? ensures HasRow(iso, table, d, m, SlotState(b, d, m)) {
      assert SlotState(a, d, m).Raised?;
    }
  }

  lemma SlotAfterSet(memory: Memory, d: string, m: string, state: MetricState, d1: string, m1: string)
    ensures SlotState(SetSlot(memory, d, m, state), d1, m1) ==
            if d1 == d && m1 == m then state else SlotState(memory, d1, m1)
  {
  }

  lemma SlotsAfterSet(memory: Memory, d: string, m: string, state: MetricState)
    ensures forall d1, m1 :: SlotState(SetSlot(memory, d, m, state), d1, m1) ==
              if d1 == d && m1 == m then state else SlotState(memory, d1, m1)
  {
    forall d1, m1 ensures SlotState(SetSlot(memory, d, m, state), d1, m1) ==
                          if d1 == d && m1 == m then state else SlotState(memory, d1, m1) {
      SlotAfterSet(memory, d, m, state, d1, m1);
    }
  }

  /** No row of this slot has this raise time or a later one. */
  ghost predicate Fresh(table: Table, deviceCode: string, metricKey: string, nowMs: int) {
    forall key :: key in table && table[key].deviceCode == deviceCode && table[key].metricKey == metricKey
                  ==> table[key].raisedAt < nowMs
  }

  lemma FreshKeyIsNew(iso: Stamp, table: Table, d: string, m: string, mode: DeviceMode, at: int)
    requires GoodStamp(iso) && Keyed(iso, table) && Plain(d) && Fresh(table, d, m, at)
    ensures EpisodeKey(iso, d, m, mode, at) !in table
  {
    hide EpisodeKey, GoodStamp;
    var key := EpisodeKey(iso, d, m, mode, at);
    if key in table {
      var row := table[key];
      KeyIsInjective(iso, row.deviceCode, row.metricKey, row.mode, row.raisedAt, d, m, mode, at);
      assert false;
    }
  }

  /** What a transition says about its slot's states before and after. */
  lemma StepCases(cycle: Cycle, m: string, prev: MetricState)
    ensures var (next, t) := StepMetric(cycle, m, prev);
            match t
            case None => next == prev || (prev.Quiet? && next.Quiet?)
            case Some(t) =>
              && t.deviceCode == cycle.deviceCode && t.metricKey == m && t.occurredAt == cycle.nowMs
              && (IsRaise(t) ==>
                    && prev.Quiet? && t.raisedAt == cycle.nowMs
                    && next == Raised(t.boundary, t.severity, t.threshold, t.raisedAt, t.mode))
              && (IsClear(t) ==>
                    && next.Quiet? && prev == Raised(t.boundary, t.severity, t.threshold, t.raisedAt, t.mode))
  {
    hide RuleOf, UsableValue, IsBackToNormal, DetectViolation;
  }

  lemma NothingHappens(iso: Stamp, memory: Memory, table: Table, d: string, m: string, next: MetricState)
    requires Agrees(iso, memory, table)
    requires next == SlotState(memory, d, m) || (next.Quiet? && SlotState(memory, d, m).Quiet?)
    ensures Agrees(iso, SetSlot(memory, d, m, next), table)
  {
    hide SlotState, HasRow, SetSlot;
    SlotsAfterSet(memory, d, m, next);
  }

  /** Raising a quiet metric keeps memory and table in agreement exactly when its episode key is not taken. */
  lemma RaiseAgreesIffKeyIsNew(iso: Stamp, memory: Memory, table: Table, t: Transition)
    requires GoodStamp(iso) && Plain(t.deviceCode) && Keyed(iso, table) && Agrees(iso, memory, table)
    requires IsRaise(t) && t.raisedAt == t.occurredAt && SlotState(memory, t.deviceCode, t.metricKey).Quiet?
    ensures Agrees(iso,
                   SetSlot(memory, t.deviceCode, t.metricKey,
                           Raised(t.boundary, t.severity, t.threshold, t.raisedAt, t.mode)),
                   InsertRow(iso, table, t))
            <==> KeyOf(iso, t) !in table
  {
    hide SlotState, SetSlot, EpisodeKey, GoodStamp;
    var next := Raised(t.boundary, t.severity, t.threshold, t.raisedAt, t.mode);
    var key := KeyOf(iso, t);
    SlotsAfterSet(memory, t.deviceCode, t.metricKey, next);
    if key in table {
      var row := table[key];
      KeyIsInjective(iso, row.deviceCode, row.metricKey, row.mode, row.raisedAt,
                     t.deviceCode, t.metricKey, t.mode, t.raisedAt);
      assert !IsOpen(table, key);
      assert !HasRow(iso, table, t.deviceCode, t.metricKey, next);
    } else {
      RaiseAgrees(iso, memory, table, t);
    }
  }

  lemma RaiseAgrees(iso: Stamp, memory: Memory, table: Table, t: Transition)
    requires Agrees(iso, memory, table) && KeyOf(iso, t) !in table
    requires IsRaise(t) && t.raisedAt == t.occurredAt && SlotState(memory, t.deviceCode, t.metricKey).Quiet?
    ensures Agrees(iso,
                   SetSlot(memory, t.deviceCode, t.metricKey,
                           Raised(t.boundary, t.severity, t.threshold, t.raisedAt, t.mode)),
                   InsertRow(iso, table, t))
  {
    hide SlotState, SetSlot, EpisodeKey;
    SlotsAfterSet(memory, t.deviceCode, t.metricKey, Raised(t.boundary, t.severity, t.threshold, t.raisedAt, t.mode));
  }

  lemma ClearAgrees(iso: Stamp, memory: Memory, table: Table, t: Transition, next: MetricState)
    requires Keyed(iso, table) && Agrees(iso, memory, table) && IsClear(t) && next.Quiet?
    requires SlotState(memory, t.deviceCode, t.metricKey) ==
             Raised(t.boundary, t.severity, t.threshold, t.raisedAt, t.mode)
    ensures IsOpen(table, KeyOf(iso, t))
    ensures Agrees(iso, SetSlot(memory, t.deviceCode, t.metricKey, next), ClearRow(iso, table, t))
  {
    hide SlotState, SetSlot, EpisodeKey;
    SlotsAfterSet(memory, t.deviceCode, t.metricKey, next);
    assert HasRow(iso, table, t.deviceCode, t.metricKey, SlotState(memory, t.deviceCode, t.metricKey));
    var key := KeyOf(iso, t);
    var after := ClearRow(iso, table, t);
    var memoryAfter := SetSlot(memory, t.deviceCode, t.metricKey, next);
    forall k | IsOpen(after, k)
      ensures Repeats(after[k], SlotState(memoryAfter, after[k].deviceCode, after[k].metricKey))
    {
      assert k != key && after[k] == table[k] && IsOpen(table, k);
      assert KeyOfRow(iso, table[k]) == k && KeyOfRow(iso, table[key]) == key;
    }
    forall d, m | SlotState(memoryAfter, d, m).Raised?
      ensures HasRow(iso, after, d, m, SlotState(memoryAfter, d, m))
    {
      assert HasRow(iso, table, d, m, SlotState(memory, d, m));
    }
  }

  // ---------------------------------------------------------------- one slot, one cycle

  ghost predicate AllSettled(iso: Stamp, table: Table, log: seq<Transition>) {
    forall t :: t in log ==> Settled(iso, table, t)
  }

  /** Every clear made so far ends an episode of this device that began before `nowMs`. */
  ghost predicate ClearsAreOld(log: seq<Transition>, deviceCode: string, nowMs: int) {
    forall c :: c in log && IsClear(c) && c.deviceCode == deviceCode ==> c.raisedAt < nowMs
  }

  ghost predicate PlainLog(log: seq<Transition>) {
    forall t :: t in log ==> Plain(t.deviceCode)
  }

  ghost predicate Sound(iso: Stamp, memory: Memory, table: Table, log: seq<Transition>) {
    && Keyed(iso, table) && Agrees(iso, memory, table) && AllSettled(iso, table, log)
    && NoReraise(iso, log) && PlainLog(log)
  }

  lemma ReraiseNeedsTime(iso: Stamp, log: seq<Transition>, t: Transition)
    requires GoodStamp(iso) && Plain(t.deviceCode) && PlainLog(log) && NoReraise(iso, log)
    requires IsRaise(t) ==> ClearsAreOld(log, t.deviceCode, t.raisedAt)
    ensures NoReraise(iso, log + [t])
  {
    hide EpisodeKey, GoodStamp;
    if IsRaise(t) {
      forall i | 0 <= i < |log| && IsClear(log[i]) ensures KeyOf(iso, log[i]) != KeyOf(iso, t) {
        var c := log[i];
        assert c in log;
        if KeyOf(iso, c) == KeyOf(iso, t) {
          KeyIsInjective(iso, c.deviceCode, c.metricKey, c.mode, c.raisedAt, t.deviceCode, t.metricKey, t.mode,
                         t.raisedAt);
          assert false;
        }
      }
    }
  }

  lemma SettledGrows(iso: Stamp, table: Table, log: seq<Transition>, t: Transition)
    requires AllSettled(iso, table, log) && Settled(iso, Apply(iso, table, t), t)
    ensures AllSettled(iso, Apply(iso, table, t), log + [t])
  {
    hide Apply, Settled;
    forall x | x in log ensures Settled(iso, Apply(iso, table, t), x) {
      SettledStays(iso, table, x, t);
    }
  }

  lemma SlotMoves(iso: Stamp, memory: Memory, table: Table, log: seq<Transition>, cycle: Cycle, m: string)
    requires GoodStamp(iso) && Plain(cycle.deviceCode) && Sound(iso, memory, table, log)
    requires Fresh(table, cycle.deviceCode, m, cycle.nowMs) && ClearsAreOld(log, cycle.deviceCode, cycle.nowMs)
    ensures var step := StepMetric(cycle, m, SlotState(memory, cycle.deviceCode, m));
            var after := ApplyAll(iso, table, AsSeq(step.1));
            && Sound(iso, SetSlot(memory, cycle.deviceCode, m, step.0), after, log + AsSeq(step.1))
            && ClearsAreOld(log + AsSeq(step.1), cycle.deviceCode, cycle.nowMs)
            && OnlyRowsOf(table, after, cycle, m)
  {
    hide StepMetric, SlotState, SetSlot, Agrees, EpisodeKey, GoodStamp, NoReraise, AllSettled;
    var d := cycle.deviceCode;
    var prev := SlotState(memory, d, m);
    var step := StepMetric(cycle, m, prev);
    StepCases(cycle, m, prev);
    if step.1.None? {
      NothingHappens(iso, memory, table, d, m, step.0);
      assert log + [] == log;
    } else {
      var t := step.1.value;
      ApplyOne(iso, table, t);
      if IsRaise(t) {
        FreshKeyIsNew(iso, table, d, m, t.mode, t.raisedAt);
        RaiseAgrees(iso, memory, table, t);
      } else {
        ClearAgrees(iso, memory, table, t, step.0);
        EpisodeBeganEarlier(iso, table, t, cycle);
      }
      SettledGrows(iso, table, log, t);
      ReraiseNeedsTime(iso, log, t);
    }
  }

  lemma EpisodeBeganEarlier(iso: Stamp, table: Table, t: Transition, cycle: Cycle)
    requires GoodStamp(iso) && Keyed(iso, table) && Plain(t.deviceCode) && KeyOf(iso, t) in table
    requires Fresh(table, t.deviceCode, t.metricKey, cycle.nowMs)
    ensures t.raisedAt < cycle.nowMs
  {
    hide EpisodeKey, GoodStamp;
    var row := table[KeyOf(iso, t)];
    KeyIsInjective(iso, row.deviceCode, row.metricKey, row.mode, row.raisedAt, t.deviceCode, t.metricKey, t.mode,
                   t.raisedAt);
  }

  /** Rows keep their identity; a new one can only belong to this slot and carry the time of this cycle. */
  ghost predicate OnlyRowsOf(table: Table, after: Table, cycle: Cycle, m: string) {
    forall key :: key in after ==>
      (key in table && SameEpisode(table[key], after[key])) || BelongsTo(after[key], cycle, m)
  }

  predicate SameEpisode(a: Row, b: Row) {
    a.deviceCode == b.deviceCode && a.metricKey == b.metricKey && a.mode == b.mode && a.raisedAt == b.raisedAt
  }

  predicate BelongsTo(row: Row, cycle: Cycle, m: string) {
    row.deviceCode == cycle.deviceCode && row.metricKey == m && row.raisedAt == cycle.nowMs
  }

  // ---------------------------------------------------------------- one frame of one device

  ghost function MadeBy(memory: Memory, cycle: Cycle): seq<Transition> {
    var state := DeviceOf(memory, cycle.deviceCode);
    TransitionsAfter(cycle, state, KeysOfCycle(cycle, state))
  }

  ghost function AfterFrame(memory: Memory, cycle: Cycle): Memory {
    var state := DeviceOf(memory, cycle.deviceCode);
    memory[cycle.deviceCode := StatesAfter(cycle, state, KeysOfCycle(cycle, state))]
  }

  /** The memory while the engine is somewhere in its loop over the metric keys. */
  function Through(memory: Memory, cycle: Cycle, keys: seq<string>): Memory {
    if keys == [] then memory
    else
      var last := keys[|keys| - 1];
      SetSlot(Through(memory, cycle, keys[..|keys| - 1]), cycle.deviceCode, last,
              StepMetric(cycle, last, SlotState(memory, cycle.deviceCode, last)).0)
  }

  lemma {:induction false} SlotsThrough(memory: Memory, cycle: Cycle, keys: seq<string>)
    ensures forall d, m :: SlotState(Through(memory, cycle, keys), d, m) ==
              if d == cycle.deviceCode && m in keys then StepMetric(cycle, m, SlotState(memory, d, m)).0
              else SlotState(memory, d, m)
  {
    hide StepMetric, SlotState, SetSlot;
    if keys != [] {
      var n := |keys| - 1;
      SlotsThrough(memory, cycle, keys[..n]);
      assert keys == keys[..n] + [keys[n]];
      SlotsAfterSet(Through(memory, cycle, keys[..n]), cycle.deviceCode, keys[n],
                    StepMetric(cycle, keys[n], SlotState(memory, cycle.deviceCode, keys[n])).0);
    }
  }

  lemma ThroughAllIsTheFrame(memory: Memory, cycle: Cycle)
    ensures var keys := KeysOfCycle(cycle, DeviceOf(memory, cycle.deviceCode));
            SameSlots(Through(memory, cycle, keys), AfterFrame(memory, cycle))
  {
    hide StepMetric, PrevOf, KeysOfCycle, StatesAfter;
    var state := DeviceOf(memory, cycle.deviceCode);
    var keys := KeysOfCycle(cycle, state);
    SlotsThrough(memory, cycle, keys);
    forall d, m ensures SlotState(Through(memory, cycle, keys), d, m) == SlotState(AfterFrame(memory, cycle), d, m) {
      CycleByMetric(cycle, state, m);
      if m !in keys {
        OutsideTheLoop(cycle, state, m);
      }
    }
  }

  /** Rows written since: nothing but rows of the visited metrics at the time of this cycle. */
  ghost predicate OnlyRowsSince(before: Table, after: Table, cycle: Cycle, keys: seq<string>) {
    forall key :: key in after ==>
      || (key in before && SameEpisode(before[key], after[key]))
      || (after[key].metricKey in keys && BelongsTo(after[key], cycle, after[key].metricKey))
  }

  ghost predicate DeviceFresh(table: Table, deviceCode: string, nowMs: int) {
    forall key :: key in table && table[key].deviceCode == deviceCode ==> table[key].raisedAt < nowMs
  }

  lemma {:induction false} FrameKeepsSound(
    iso: Stamp, memory: Memory, table: Table, log: seq<Transition>, cycle: Cycle, keys: seq<string>)
    requires GoodStamp(iso) && Plain(cycle.deviceCode) && Sound(iso, memory, table, log) && Distinct(keys)
    requires DeviceFresh(table, cycle.deviceCode, cycle.nowMs) && ClearsAreOld(log, cycle.deviceCode, cycle.nowMs)
    ensures var ts := TransitionsAfter(cycle, DeviceOf(memory, cycle.deviceCode), keys);
            var after := ApplyAll(iso, table, ts);
            && Sound(iso, Through(memory, cycle, keys), after, log + ts)
            && ClearsAreOld(log + ts, cycle.deviceCode, cycle.nowMs)
            && OnlyRowsSince(table, after, cycle, keys)
  {
    hide Sound, StepMetric, SlotState, PrevOf, DeviceOf, SetSlot, ClearsAreOld, ApplyAll, GoodStamp;
    var d := cycle.deviceCode;
    if keys == [] {
      assert log + [] == log;
      NothingApplied(iso, table);
    } else {
      var n := |keys| - 1;
      var front, m := keys[..n], keys[n];
      FrameKeepsSound(iso, memory, table, log, cycle, front);
      var ts := TransitionsAfter(cycle, DeviceOf(memory, d), front);
      var mid := Through(memory, cycle, front);
      var step := StepMetric(cycle, m, SlotState(memory, d, m));
      var table1 := ApplyAll(iso, table, ts);
      assert m !in front;
      SlotsThrough(memory, cycle, front);
      assert Fresh(table1, d, m, cycle.nowMs);
      SlotMoves(iso, mid, table1, log + ts, cycle, m);
      ApplyConcat(iso, table, ts, AsSeq(step.1));
      assert log + ts + AsSeq(step.1) == log + (ts + AsSeq(step.1));
      SlotIsPrev(memory, d, m);
      assert keys == front + [m];
    }
  }

  lemma SlotIsPrev(memory: Memory, d: string, m: string)
    ensures SlotState(memory, d, m) == PrevOf(DeviceOf(memory, d), m)
  {
  }

  lemma {:induction false} TransitionsAreOfTheDevice(cycle: Cycle, prevState: DeviceState, keys: seq<string>)
    ensures forall t :: t in TransitionsAfter(cycle, prevState, keys) ==> t.deviceCode == cycle.deviceCode
  {
    hide StepMetric;
    if keys != [] {
      var n := |keys| - 1;
      TransitionsAreOfTheDevice(cycle, prevState, keys[..n]);
      TransitionIsOfItsMetric(cycle, keys[n], PrevOf(prevState, keys[n]));
    }
  }

  lemma KeysAreDistinct(cycle: Cycle, state: DeviceState)
    ensures Distinct(KeysOfCycle(cycle, state))
  {
  }

  lemma NothingApplied(iso: Stamp, table: Table)
    ensures ApplyAll(iso, table, []) == table
  {
  }
}
