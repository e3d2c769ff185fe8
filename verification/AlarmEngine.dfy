/** The alarm engine: debounce, hysteresis and mode-dependent thresholds, one device and one polling cycle at a time. */
module AlarmEngine {
  import opened Wrappers
  import opened Sequences

  datatype DeviceMode = Cooling | Defrost | Service | Off

  datatype Quality = Good | Stale | Substituted | Bad

  datatype Severity = Info | Warning | Critical

  datatype Boundary = AtMin | AtMax

  /** A threshold rule, keyed by device, metric and mode. */
  datatype AlarmRule = AlarmRule(
    deviceCode: string,
    metricKey: string,
    mode: DeviceMode,
    minValue: Option<real>,
    maxValue: Option<real>,
    hysteresis: real,
    debounceCycles: int,
    severity: Severity,
    enabled: bool)

  datatype MetricSample = MetricSample(value: Option<real>, quality: Quality)

  datatype MetricState =
    | Quiet(pending: Option<Boundary>, violationCycles: nat)
    | Raised(boundary: Boundary, severity: Severity, threshold: real, raisedAt: int, mode: DeviceMode)

  type DeviceState = map<string, MetricState>

  datatype TransitionKind = ToRaised | ToCleared

  datatype Transition = Transition(
    deviceCode: string,
    metricKey: string,
    mode: DeviceMode,
    kind: TransitionKind,
    severity: Severity,
    value: Option<real>,
    threshold: real,
    boundary: Boundary,
    occurredAt: int,
    raisedAt: int)

  /** One polling cycle of one device. */
  datatype Cycle = Cycle(
    deviceCode: string,
    mode: DeviceMode,
    metrics: map<string, MetricSample>,
    rules: seq<AlarmRule>,
    nowMs: int)

  const IDLE := Quiet(None, 0)

  function ModeText(mode: DeviceMode): string {
    match mode
    case Cooling => "cooling"
    case Defrost => "defrost"
    case Service => "service"
    case Off => "off"
  }

  lemma ModeTextIsPlain(mode: DeviceMode)
    ensures '|' !in ModeText(mode) && '/' !in ModeText(mode)
  {
  }

  lemma ModeTextIsInjective(a: DeviceMode, b: DeviceMode)
    requires ModeText(a) == ModeText(b)
    ensures a == b
  {
    assert ModeText(a)[0] == ModeText(b)[0];
  }

  predicate Muted(mode: DeviceMode) {
    mode == Service || mode == Off
  }

  /** What the rule schema guarantees of a rule. */
  predicate ValidRule(rule: AlarmRule) {
    && rule.hysteresis >= 0.0
    && 1 <= rule.debounceCycles <= 60
    && (rule.minValue.Some? || rule.maxValue.Some?)
    && (rule.minValue.Some? && rule.maxValue.Some? ==> rule.minValue.value < rule.maxValue.value)
  }

  function DetectViolation(rule: AlarmRule, value: real): Option<(Boundary, real)> {
    if rule.maxValue.Some? && value > rule.maxValue.value then Some((AtMax, rule.maxValue.value))
    else if rule.minValue.Some? && value < rule.minValue.value then Some((AtMin, rule.minValue.value))
    else None
  }

  predicate IsBackToNormal(rule: AlarmRule, boundary: Boundary, value: real) {
    match boundary
    case AtMax => rule.maxValue.None? || value < rule.maxValue.value - rule.hysteresis
    case AtMin => rule.minValue.None? || value > rule.minValue.value + rule.hysteresis
  }

  function ClearedTransition(cycle: Cycle, metricKey: string, prev: MetricState, value: Option<real>): Transition
    requires prev.Raised?
  {
    Transition(cycle.deviceCode, metricKey, prev.mode, ToCleared, prev.severity, value, prev.threshold, prev.boundary,
               cycle.nowMs, prev.raisedAt)
  }

  predicate Applies(rule: AlarmRule, cycle: Cycle) {
    rule.enabled && rule.deviceCode == cycle.deviceCode && rule.mode == cycle.mode
  }

  /** The rules of the cycle's mode by metric; of two for one metric the later counts. */
  function RuleTable(rules: seq<AlarmRule>, cycle: Cycle): map<string, AlarmRule> {
    if rules == [] then map[]
    else
      var last := rules[|rules| - 1];
      var table := RuleTable(rules[..|rules| - 1], cycle);
      if Applies(last, cycle) then table[last.metricKey := last] else table
  }

  method RulesForMode(cycle: Cycle) returns (byMetric: map<string, AlarmRule>)
    ensures byMetric == RuleTable(cycle.rules, cycle)
  {
    byMetric := map[];
    for i := 0 to |cycle.rules|
      invariant byMetric == RuleTable(cycle.rules[..i], cycle)
    {
      var rule := cycle.rules[i];
      assert cycle.rules[..i + 1][..i] == cycle.rules[..i];
      if Applies(rule, cycle) {
        byMetric := byMetric[rule.metricKey := rule];
      }
    }
    assert cycle.rules[..|cycle.rules|] == cycle.rules;
  }

  function UsableValue(cycle: Cycle, metricKey: string): Option<real> {
    if metricKey in cycle.metrics && cycle.metrics[metricKey].quality != Bad then cycle.metrics[metricKey].value
    else None
  }

  function RuleOf(cycle: Cycle, metricKey: string): Option<AlarmRule> {
    var table := RuleTable(cycle.rules, cycle);
    if metricKey in table then Some(table[metricKey]) else None
  }

  /** One metric, one cycle: the next state and at most one transition. */
  function StepMetric(cycle: Cycle, metricKey: string, prev: MetricState): (MetricState, Option<Transition>) {
    StepWith(cycle, metricKey, prev, RuleOf(cycle, metricKey), UsableValue(cycle, metricKey))
  }

  function StepWith(cycle: Cycle, metricKey: string, prev: MetricState, rule: Option<AlarmRule>, value: Option<real>)
    : (MetricState, Option<Transition>)
  {
    if Muted(cycle.mode) || rule.None? then
      (IDLE, if prev.Raised? then Some(ClearedTransition(cycle, metricKey, prev, value)) else None)
    else if value.None? then (prev, None)
    else if prev.Raised? then
      if IsBackToNormal(rule.value, prev.boundary, value.value)
      then (IDLE, Some(ClearedTransition(cycle, metricKey, prev, value)))
      else (prev, None)
    else
      var violation := DetectViolation(rule.value, value.value);
      if violation.None? then (IDLE, None)
      else
        var (boundary, threshold) := violation.value;
        var cycles := if prev.pending == Some(boundary) then prev.violationCycles + 1 else 1;
        if cycles < rule.value.debounceCycles then (Quiet(Some(boundary), cycles), None)
        else
          (Raised(boundary, rule.value.severity, threshold, cycle.nowMs, cycle.mode),
           Some(Transition(cycle.deviceCode, metricKey, cycle.mode, ToRaised, rule.value.severity, value, threshold,
                           boundary, cycle.nowMs, cycle.nowMs)))
  }

  function PrevOf(state: DeviceState, metricKey: string): MetricState {
    if metricKey in state then state[metricKey] else IDLE
  }

  // ---------------------------------------------------------------- metric keys in order

  ghost predicate IsLeast(least: string, texts: set<string>) {
    least in texts && forall x :: x in texts ==> TextLe(least, x)
  }

  lemma {:induction false} LeastText(texts: set<string>) returns (least: string)
    requires texts != {}
    ensures IsLeast(least, texts)
  {
    hide TextLe;
    var some :| some in texts;
    TextLeConnects(some, some);
    var rest := texts - {some};
    least := some;
    if rest != {} {
      var low := LeastText(rest);
      TextLeConnects(some, low);
      if !TextLe(some, low) {
        least := low;
      } else {
        forall x | x in rest ensures TextLe(some, x) {
          TextLeChains(some, low, x);
        }
      }
    }
    forall x | x in texts ensures TextLe(least, x) {
      assert x == some || x in rest;
    }
  }

  ghost function Least(texts: set<string>): (least: string)
    requires texts != {}
    ensures IsLeast(least, texts)
  {
    assert exists least :: IsLeast(least, texts) by {
      var least := LeastText(texts);
    }
    var least :| IsLeast(least, texts);
    least
  }

  lemma LeastIsUnique(texts: set<string>, least: string)
    requires IsLeast(least, texts)
    ensures least == Least(texts)
  {
    TextLeConnects(least, Least(texts));
  }

  /** The members of a set of texts in ascending order. */
  ghost function InOrder(texts: set<string>): (keys: seq<string>)
    ensures forall x :: x in keys <==> x in texts
    ensures Distinct(keys)
    decreases |texts|
  {
    if texts == {} then [] else [Least(texts)] + InOrder(texts - {Least(texts)})
  }

  method LeastOf(texts: set<string>) returns (least: string)
    requires texts != {}
    ensures IsLeast(least, texts)
  {
    hide TextLe;
    assert IsLeast(Least(texts), texts);
    least :| least in texts && forall x :: x in texts ==> TextLe(least, x);
  }

  /** The sorted key list the engine loops over. */
  method SortedKeys(texts: set<string>) returns (keys: seq<string>)
    ensures keys == InOrder(texts)
  {
    hide InOrder, IsLeast;
    keys := [];
    var rest := texts;
    while rest != {}
      invariant InOrder(texts) == keys + InOrder(rest)
      decreases rest
    {
      var least := LeastOf(rest);
      LeastIsUnique(rest, least);
      InOrderStartsWithLeast(rest);
      assert keys + [least] + InOrder(rest - {least}) == keys + InOrder(rest);
      keys := keys + [least];
      rest := rest - {least};
    }
    InOrderOfNothing();
  }

  lemma InOrderStartsWithLeast(texts: set<string>)
    requires texts != {}
    ensures InOrder(texts) == [Least(texts)] + InOrder(texts - {Least(texts)})
  {
  }

  lemma InOrderOfNothing()
    ensures InOrder({}) == []
  {
  }

  // ---------------------------------------------------------------- the whole device

  function StatesAfter(cycle: Cycle, prevState: DeviceState, keys: seq<string>): DeviceState {
    if keys == [] then map[]
    else
      var last := keys[|keys| - 1];
      StatesAfter(cycle, prevState, keys[..|keys| - 1])[last := StepMetric(cycle, last, PrevOf(prevState, last)).0]
  }

  function TransitionsAfter(cycle: Cycle, prevState: DeviceState, keys: seq<string>): seq<Transition> {
    if keys == [] then []
    else
      var last := keys[|keys| - 1];
      var transition := StepMetric(cycle, last, PrevOf(prevState, last)).1;
      TransitionsAfter(cycle, prevState, keys[..|keys| - 1]) + if transition.Some? then [transition.value] else []
  }

  ghost function KeysOfCycle(cycle: Cycle, prevState: DeviceState): seq<string> {
    InOrder(prevState.Keys + RuleTable(cycle.rules, cycle).Keys)
  }

  lemma NothingYet(cycle: Cycle, prevState: DeviceState)
    ensures StatesAfter(cycle, prevState, []) == map[]
    ensures TransitionsAfter(cycle, prevState, []) == []
  {
  }

  lemma AfterOneMore(cycle: Cycle, prevState: DeviceState, keys: seq<string>, i: nat)
    requires i < |keys|
    ensures var step := StepMetric(cycle, keys[i], PrevOf(prevState, keys[i]));
            && StatesAfter(cycle, prevState, keys[..i + 1]) ==
              StatesAfter(cycle, prevState, keys[..i])[keys[i] := step.0]
            && TransitionsAfter(cycle, prevState, keys[..i + 1]) ==
               TransitionsAfter(cycle, prevState, keys[..i]) + (if step.1.Some? then [step.1.value] else [])
  {
    assert keys[..i + 1][..i] == keys[..i];
  }

  method EvaluateDeviceAlarms(cycle: Cycle, prevState: DeviceState)
    returns (transitions: seq<Transition>, state: DeviceState)
    ensures transitions == TransitionsAfter(cycle, prevState, KeysOfCycle(cycle, prevState))
    ensures state == StatesAfter(cycle, prevState, KeysOfCycle(cycle, prevState))
  {
    hide InOrder, RuleTable, StatesAfter, TransitionsAfter;
    var rules := RulesForMode(cycle);
    var muted := Muted(cycle.mode);
    var metricKeys := SortedKeys(prevState.Keys + rules.Keys);
    transitions, state := [], map[];
    NothingYet(cycle, prevState);
    for i := 0 to |metricKeys|
      invariant transitions == TransitionsAfter(cycle, prevState, metricKeys[..i])
      invariant state == StatesAfter(cycle, prevState, metricKeys[..i])
    {
      var metricKey := metricKeys[i];
      AfterOneMore(cycle, prevState, metricKeys, i);
      var prev := PrevOf(prevState, metricKey);
      var value := UsableValue(cycle, metricKey);

      if muted || metricKey !in rules {
        if prev.Raised? {
          transitions := transitions + [ClearedTransition(cycle, metricKey, prev, value)];
        }
        state := state[metricKey := IDLE];
        continue;
      }
      var rule := rules[metricKey];

      if value.None? {
        state := state[metricKey := prev];
        continue;
      }

      if prev.Raised? {
        if IsBackToNormal(rule, prev.boundary, value.value) {
          transitions := transitions + [ClearedTransition(cycle, metricKey, prev, value)];
          state := state[metricKey := IDLE];
        } else {
          state := state[metricKey := prev];
        }
        continue;
      }

      var violation := DetectViolation(rule, value.value);
      if violation.None? {
        state := state[metricKey := IDLE];
        continue;
      }
      var (boundary, threshold) := violation.value;
      var cycles := if prev.pending == Some(boundary) then prev.violationCycles + 1 else 1;
      if cycles < rule.debounceCycles {
        state := state[metricKey := Quiet(Some(boundary), cycles)];
        continue;
      }
      transitions := transitions + [
        Transition(cycle.deviceCode, metricKey, cycle.mode, ToRaised, rule.severity, value, threshold, boundary,
                   cycle.nowMs, cycle.nowMs)];
      state := state[metricKey := Raised(boundary, rule.severity, threshold, cycle.nowMs, cycle.mode)];
    }
    assert metricKeys[..|metricKeys|] == metricKeys;
  }
}
