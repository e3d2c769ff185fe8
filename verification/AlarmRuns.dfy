/** Runs of the engine over many cycles, and how a device's run splits into independent runs of its metrics. */
module AlarmRuns {
  import opened Wrappers
  import opened Sequences
  import opened AlarmEngine

  function AsSeq<T>(x: Option<T>): seq<T> {
    if x.Some? then [x.value] else []
  }

  /** The whole device, cycle after cycle: what the caller of the engine does with its state. */
  ghost function DeviceRun(cycles: seq<Cycle>, start: DeviceState): (DeviceState, seq<Transition>) {
    if cycles == [] then (start, [])
    else
      var n := |cycles| - 1;
      var (state, log) := DeviceRun(cycles[..n], start);
      var keys := KeysOfCycle(cycles[n], state);
      (StatesAfter(cycles[n], state, keys), log + TransitionsAfter(cycles[n], state, keys))
  }

  /** One metric alone. */
  function MetricRun(cycles: seq<Cycle>, metricKey: string, start: MetricState): (MetricState, seq<Transition>) {
    if cycles == [] then (start, [])
    else
      var n := |cycles| - 1;
      var (state, log) := MetricRun(cycles[..n], metricKey, start);
      var step := StepMetric(cycles[n], metricKey, state);
      (step.0, log + AsSeq(step.1))
  }

  function OfMetric(metricKey: string): Transition -> bool {
    (t: Transition) => t.metricKey == metricKey
  }

  lemma TransitionIsOfItsMetric(cycle: Cycle, metricKey: string, prev: MetricState)
    ensures var t := StepMetric(cycle, metricKey, prev).1;
            t.Some? ==> t.value.metricKey == metricKey && t.value.deviceCode == cycle.deviceCode
                        && t.value.occurredAt == cycle.nowMs
  {
  }

  lemma {:induction false} StatesByMetric(cycle: Cycle, prevState: DeviceState, keys: seq<string>)
    ensures forall k :: k in StatesAfter(cycle, prevState, keys) <==> k in keys
    ensures forall k :: k in keys ==>
              StatesAfter(cycle, prevState, keys)[k] == StepMetric(cycle, k, PrevOf(prevState, k)).0
  {
    hide StepMetric, PrevOf;
    if keys != [] {
      var n := |keys| - 1;
      StatesByMetric(cycle, prevState, keys[..n]);
      assert keys == keys[..n] + [keys[n]];
    }
  }

  lemma {:induction false} TransitionsByMetric(cycle: Cycle, prevState: DeviceState, keys: seq<string>,
      metricKey: string)
    requires Distinct(keys)
    ensures Filter(TransitionsAfter(cycle, prevState, keys), OfMetric(metricKey)) ==
            if metricKey in keys then AsSeq(StepMetric(cycle, metricKey, PrevOf(prevState, metricKey)).1) else []
  {
    hide StepMetric, PrevOf, Filter;
    if keys == [] {
      FilterOne(None, OfMetric(metricKey));
    } else {
      var n := |keys| - 1;
      var front, last := keys[..n], keys[n];
      TransitionsByMetric(cycle, prevState, front, metricKey);
      assert keys == front + [last];
      var step := StepMetric(cycle, last, PrevOf(prevState, last)).1;
      FilterAppend(TransitionsAfter(cycle, prevState, front), AsSeq(step), OfMetric(metricKey));
      TransitionIsOfItsMetric(cycle, last, PrevOf(prevState, last));
      FilterOne(step, OfMetric(metricKey));
    }
  }

  lemma FilterOne<T>(x: Option<T>, keep: T -> bool)
    ensures Filter(AsSeq(x), keep) == if x.Some? && keep(x.value) then [x.value] else []
  {
  }

  /** A metric the loop does not visit would not have moved: it is idle and has no rule. */
  lemma OutsideTheLoop(cycle: Cycle, prevState: DeviceState, metricKey: string)
    requires metricKey !in KeysOfCycle(cycle, prevState)
    ensures PrevOf(prevState, metricKey) == IDLE
    ensures StepMetric(cycle, metricKey, IDLE) == (IDLE, None)
  {
  }

  /** One cycle of the device is one step of every metric, each on its own. */
  lemma CycleByMetric(cycle: Cycle, prevState: DeviceState, metricKey: string)
    ensures var keys := KeysOfCycle(cycle, prevState);
            var step := StepMetric(cycle, metricKey, PrevOf(prevState, metricKey));
            && PrevOf(StatesAfter(cycle, prevState, keys), metricKey) == step.0
            && Filter(TransitionsAfter(cycle, prevState, keys), OfMetric(metricKey)) == AsSeq(step.1)
  {
    hide StepMetric;
    var keys := KeysOfCycle(cycle, prevState);
    StatesByMetric(cycle, prevState, keys);
    TransitionsByMetric(cycle, prevState, keys, metricKey);
    if metricKey !in keys {
      OutsideTheLoop(cycle, prevState, metricKey);
    }
  }

  /** Metrics of one device do not disturb each other, whatever the rules, modes and samples of the run. */
  lemma {:induction false} DeviceRunsByMetric(cycles: seq<Cycle>, start: DeviceState, metricKey: string)
    ensures var whole := DeviceRun(cycles, start);
            var alone := MetricRun(cycles, metricKey, PrevOf(start, metricKey));
            && PrevOf(whole.0, metricKey) == alone.0
            && Filter(whole.1, OfMetric(metricKey)) == alone.1
  {
    hide StepMetric, PrevOf, StatesAfter, TransitionsAfter, KeysOfCycle;
    if cycles != [] {
      var n := |cycles| - 1;
      DeviceRunsByMetric(cycles[..n], start, metricKey);
      var (state, log) := DeviceRun(cycles[..n], start);
      CycleByMetric(cycles[n], state, metricKey);
      FilterAppend(log, TransitionsAfter(cycles[n], state, KeysOfCycle(cycles[n], state)), OfMetric(metricKey));
    }
  }

  // ---------------------------------------------------------------- transitions alternate

  /** A clear carries its raise's mode, threshold, severity, boundary and raise time. */
  predicate Closes(raise: Transition, clear: Transition) {
    && raise.kind.ToRaised? && clear.kind.ToCleared?
    && raise.deviceCode == clear.deviceCode && raise.metricKey == clear.metricKey
    && raise.mode == clear.mode && raise.threshold == clear.threshold && raise.severity == clear.severity
    && raise.boundary == clear.boundary && raise.raisedAt == clear.raisedAt == raise.occurredAt
  }

  ghost predicate Alternates(log: seq<Transition>) {
    && (forall i :: 0 <= i < |log| ==> log[i].kind == if i % 2 == 0 then ToRaised else ToCleared)
    && (forall i :: 0 <= i < |log| - 1 && i % 2 == 0 ==> Closes(log[i], log[i + 1]))
  }

  /** The state is raised exactly when the log ends in a raise, and then repeats it. */
  predicate StateTells(state: MetricState, log: seq<Transition>) {
    if log != [] && log[|log| - 1].kind.ToRaised? then
      var last := log[|log| - 1];
      && state == Raised(last.boundary, last.severity, last.threshold, last.raisedAt, last.mode)
      && last.raisedAt == last.occurredAt
    else state.Quiet?
  }

  ghost predicate OneDevice(cycles: seq<Cycle>, deviceCode: string) {
    forall c :: c in cycles ==> c.deviceCode == deviceCode
  }

  /** Over any run, with rules, modes and clocks changing at will, raises and clears strictly alternate. */
  lemma {:induction false} TransitionsAlternate(cycles: seq<Cycle>, deviceCode: string, metricKey: string)
    requires OneDevice(cycles, deviceCode)
    ensures var run := MetricRun(cycles, metricKey, IDLE);
            && Alternates(run.1) && StateTells(run.0, run.1)
            && (forall t :: t in run.1 ==> t.deviceCode == deviceCode && t.metricKey == metricKey)
  {
    if cycles != [] {
      var n := |cycles| - 1;
      TransitionsAlternate(cycles[..n], deviceCode, metricKey);
      var (state, log) := MetricRun(cycles[..n], metricKey, IDLE);
      StepKeepsAlternation(cycles[n], metricKey, state, log);
    }
  }

  /** The same of the engine itself: each metric's share of the device's log alternates. */
  lemma DeviceTransitionsAlternate(cycles: seq<Cycle>, deviceCode: string, metricKey: string)
    requires OneDevice(cycles, deviceCode)
    ensures var run := DeviceRun(cycles, map[]);
            var share := Filter(run.1, OfMetric(metricKey));
            Alternates(share) && StateTells(PrevOf(run.0, metricKey), share)
  {
    DeviceRunsByMetric(cycles, map[], metricKey);
    TransitionsAlternate(cycles, deviceCode, metricKey);
  }

  lemma StepKeepsAlternation(cycle: Cycle, metricKey: string, state: MetricState, log: seq<Transition>)
    requires Alternates(log) && StateTells(state, log)
    requires forall t :: t in log ==> t.deviceCode == cycle.deviceCode && t.metricKey == metricKey
    ensures var step := StepMetric(cycle, metricKey, state);
            var after := log + AsSeq(step.1);
            && Alternates(after) && StateTells(step.0, after)
            && (forall t :: t in after ==> t.deviceCode == cycle.deviceCode && t.metricKey == metricKey)
  {
    hide RuleOf, UsableValue, IsBackToNormal, DetectViolation;
  }

  // ---------------------------------------------------------------- metrics nobody watches

  /** An enabled rule of the cycle's device and mode for the metric. */
  predicate Watches(rule: AlarmRule, cycle: Cycle, metricKey: string) {
    rule.enabled && rule.deviceCode == cycle.deviceCode && rule.mode == cycle.mode && rule.metricKey == metricKey
  }

  /** Rule i is the last of the list that watches the metric. */
  ghost predicate LastWatching(rules: seq<AlarmRule>, cycle: Cycle, metricKey: string, i: nat) {
    && i < |rules| && Watches(rules[i], cycle, metricKey)
    && forall j :: i < j < |rules| ==> !Watches(rules[j], cycle, metricKey)
  }

  lemma LastOfOneMore(rules: seq<AlarmRule>, rule: AlarmRule, cycle: Cycle, metricKey: string, i: nat)
    requires LastWatching(rules, cycle, metricKey, i) && !Watches(rule, cycle, metricKey)
    ensures LastWatching(rules + [rule], cycle, metricKey, i) && (rules + [rule])[i] == rules[i]
  {
    hide Watches;
  }

  lemma NoRules(cycle: Cycle)
    ensures RuleTable([], cycle) == map[]
  {
  }

  lemma TableOfOneMore(rules: seq<AlarmRule>, rule: AlarmRule, cycle: Cycle)
    ensures RuleTable(rules + [rule], cycle) ==
            if Applies(rule, cycle) then RuleTable(rules, cycle)[rule.metricKey := rule] else RuleTable(rules, cycle)
  {
    assert (rules + [rule])[..|rules|] == rules;
  }

  lemma LastWatches(rules: seq<AlarmRule>, cycle: Cycle, metricKey: string)
    requires rules != [] && Watches(rules[|rules| - 1], cycle, metricKey)
    ensures LastWatching(rules, cycle, metricKey, |rules| - 1)
  {
  }

  /** The rule in force is the last one that watches the metric, and there is one iff some rule does. */
  lemma {:induction false} RuleInForceIsTheLast(rules: seq<AlarmRule>, cycle: Cycle, metricKey: string)
    ensures metricKey !in RuleTable(rules, cycle) ==>
              forall i :: 0 <= i < |rules| ==> !Watches(rules[i], cycle, metricKey)
    ensures metricKey in RuleTable(rules, cycle) ==>
              exists i: nat :: LastWatching(rules, cycle, metricKey, i) && i < |rules|
                && rules[i] == RuleTable(rules, cycle)[metricKey]
  {
    hide LastWatching, RuleTable;
    if rules == [] {
      NoRules(cycle);
    } else {
      var n := |rules| - 1;
      var front, last := rules[..n], rules[n];
      assert rules == front + [last];
      RuleInForceIsTheLast(front, cycle, metricKey);
      TableOfOneMore(front, last, cycle);
      if Watches(last, cycle, metricKey) {
        LastWatches(rules, cycle, metricKey);
      } else if metricKey in RuleTable(front, cycle) {
        var i: nat :| LastWatching(front, cycle, metricKey, i) && i < |front|
          && front[i] == RuleTable(front, cycle)[metricKey];
        LastOfOneMore(front, last, cycle, metricKey, i);
      }
    }
  }

  /**
   No alarm outlives what watches it: after a cycle in service or off, or without a rule for the metric, the metric
   is idle, and if it was raised the last transition of its log is the clear of that cycle.
   */
  lemma UnwatchedMetricsAreIdle(cycles: seq<Cycle>, metricKey: string)
    requires cycles != []
    requires var last := cycles[|cycles| - 1];
             || last.mode == Service || last.mode == Off
             || forall i :: 0 <= i < |last.rules| ==> !Watches(last.rules[i], last, metricKey)
    ensures var n := |cycles| - 1;
            var before, after := DeviceRun(cycles[..n], map[]), DeviceRun(cycles, map[]);
            && PrevOf(after.0, metricKey) == IDLE
            && (PrevOf(before.0, metricKey).Raised? ==>
                  var share := Filter(after.1, OfMetric(metricKey));
                  && share != [] && share[|share| - 1].kind.ToCleared?
                  && share[|share| - 1].occurredAt == cycles[n].nowMs)
  {
    hide DeviceRun;
    var n := |cycles| - 1;
    DeviceRunsByMetric(cycles, map[], metricKey);
    DeviceRunsByMetric(cycles[..n], map[], metricKey);
    RuleInForceIsTheLast(cycles[n].rules, cycles[n], metricKey);
    var state := MetricRun(cycles[..n], metricKey, IDLE).0;
    TransitionIsOfItsMetric(cycles[n], metricKey, state);
    assert StepMetric(cycles[n], metricKey, state).0 == IDLE;
  }

  // ---------------------------------------------------------------- which samples count

  /** A sample counts if it has a value and is not bad: stale and substituted ones count. */
  predicate Counts(sample: MetricSample) {
    sample.value.Some? && (sample.quality == Good || sample.quality == Stale || sample.quality == Substituted)
  }

  function CountedValue(cycle: Cycle, metricKey: string): Option<real> {
    if metricKey in cycle.metrics && Counts(cycle.metrics[metricKey]) then cycle.metrics[metricKey].value else None
  }

  lemma UsableIsCounted(cycle: Cycle, metricKey: string)
    ensures UsableValue(cycle, metricKey) == CountedValue(cycle, metricKey)
  {
  }

  /** With a rule in force, a missing sample, one without a value or a bad one leaves the metric as it was. */
  lemma UncountedSampleChangesNothing(cycle: Cycle, prevState: DeviceState, metricKey: string)
    requires cycle.mode == Cooling || cycle.mode == Defrost
    requires exists i :: 0 <= i < |cycle.rules| && Watches(cycle.rules[i], cycle, metricKey)
    requires metricKey in cycle.metrics ==>
               cycle.metrics[metricKey].value.None? || cycle.metrics[metricKey].quality == Bad
    ensures var keys := KeysOfCycle(cycle, prevState);
            && PrevOf(StatesAfter(cycle, prevState, keys), metricKey) == PrevOf(prevState, metricKey)
            && Filter(TransitionsAfter(cycle, prevState, keys), OfMetric(metricKey)) == []
  {
    hide KeysOfCycle, StatesAfter, TransitionsAfter, RuleTable;
    CycleByMetric(cycle, prevState, metricKey);
    RuleInForceIsTheLast(cycle.rules, cycle, metricKey);
    UsableIsCounted(cycle, metricKey);
  }

  /** Every transition carries the counted value of its metric in that cycle, and a raise has one. */
  lemma {:induction false} TransitionsCarrySamples(
    cycle: Cycle, prevState: DeviceState, keys: seq<string>, t: Transition)
    requires t in TransitionsAfter(cycle, prevState, keys)
    ensures t.deviceCode == cycle.deviceCode && t.occurredAt == cycle.nowMs
    ensures t.value == CountedValue(cycle, t.metricKey)
    ensures t.kind.ToRaised? ==> t.value.Some? && t.mode == cycle.mode && (t.mode == Cooling || t.mode == Defrost)
  {
    hide StepMetric, PrevOf;
    var n := |keys| - 1;
    if t in TransitionsAfter(cycle, prevState, keys[..n]) {
      TransitionsCarrySamples(cycle, prevState, keys[..n], t);
    } else {
      StepCarriesSample(cycle, keys[n], PrevOf(prevState, keys[n]));
    }
  }

  lemma StepCarriesSample(cycle: Cycle, metricKey: string, prev: MetricState)
    ensures var t := StepMetric(cycle, metricKey, prev).1;
            t.Some? ==>
              && t.value.deviceCode == cycle.deviceCode && t.value.metricKey == metricKey
              && t.value.occurredAt == cycle.nowMs && t.value.value == CountedValue(cycle, metricKey)
              && (t.value.kind.ToRaised? ==>
                    && t.value.value.Some? && t.value.mode == cycle.mode
                    && (t.value.mode == Cooling || t.value.mode == Defrost))
  {
    hide RuleOf, IsBackToNormal, DetectViolation;
    UsableIsCounted(cycle, metricKey);
  }

  /** Every raise of a run goes back to a counted sample of its own cycle. */
  lemma {:induction false} RaisesComeFromSamples(cycles: seq<Cycle>, start: DeviceState, t: Transition)
    requires t in DeviceRun(cycles, start).1 && t.kind.ToRaised?
    ensures exists c :: c in cycles && c.nowMs == t.occurredAt && c.deviceCode == t.deviceCode && c.mode == t.mode
              && t.metricKey in c.metrics && Counts(c.metrics[t.metricKey])
              && c.metrics[t.metricKey].value == t.value
  {
    hide KeysOfCycle, StatesAfter, TransitionsAfter;
    var n := |cycles| - 1;
    var (state, log) := DeviceRun(cycles[..n], start);
    if t in log {
      RaisesComeFromSamples(cycles[..n], start, t);
    } else {
      TransitionsCarrySamples(cycles[n], state, KeysOfCycle(cycles[n], state), t);
      assert cycles[n] in cycles;
    }
  }
}
