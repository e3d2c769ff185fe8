/**
What the engine's verdicts mean, told without the engine: the episodes of one metric under one rule are read
off the list of its counted readings, by quantifiers over positions alone.
*/
module AlarmHistory {
  import opened Wrappers
  import opened Sequences
  import opened AlarmEngine
  import opened AlarmRuns

  /** A sample that counts: its value and the time of its cycle. */
  datatype Reading = Reading(value: real, at: int)

  /** One episode, as positions in the list of readings. */
  datatype Episode = Episode(raise: nat, boundary: Boundary, clear: Option<nat>)

  predicate Violates(rule: AlarmRule, boundary: Boundary, value: real) {
    match boundary
    case AtMax => rule.maxValue.Some? && value > rule.maxValue.value
    case AtMin => rule.minValue.Some? && value < rule.minValue.value
  }

  function ThresholdOf(rule: AlarmRule, boundary: Boundary): real {
    match boundary
    case AtMax => rule.maxValue.GetOr(0.0)
    case AtMin => rule.minValue.GetOr(0.0)
  }

  /** Under a valid rule the branches of the detector are the two plain comparisons. */
  lemma DetectorFinds(rule: AlarmRule, value: real, boundary: Boundary)
    requires ValidRule(rule)
    ensures DetectViolation(rule, value) == Some((boundary, ThresholdOf(rule, boundary))) <==>
        Violates(rule, boundary, value)
    ensures DetectViolation(rule, value).None? <==> !Violates(rule, AtMax, value) && !Violates(rule, AtMin, value)
  {
  }

  /** Between the threshold and its hysteresis, both ends included. */
  predicate InZone(rule: AlarmRule, boundary: Boundary, value: real) {
    match boundary
    case AtMax => rule.maxValue.Some? && rule.maxValue.value - rule.hysteresis <= value <= rule.maxValue.value
    case AtMin => rule.minValue.Some? && rule.minValue.value <= value <= rule.minValue.value + rule.hysteresis
  }

  /** Every value either violates the boundary, or lies in its zone, where nothing changes, or is back to normal. */
  lemma ZoneSeparates(rule: AlarmRule, boundary: Boundary, value: real)
    requires ValidRule(rule)
    ensures Violates(rule, boundary, value) ==> !InZone(rule, boundary, value) && !IsBackToNormal(rule, boundary, value)
    ensures InZone(rule, boundary, value) ==> !IsBackToNormal(rule, boundary, value)
    ensures Violates(rule, boundary, value) || InZone(rule, boundary, value) || IsBackToNormal(rule, boundary, value)
  {
  }

  // ---------------------------------------------------------------- the declarative history

  /** Readings r - debounce + 1 .. r all lie at or after `start` and all violate the same boundary. */
  ghost predicate Window(h: seq<Reading>, rule: AlarmRule, start: nat, r: nat, boundary: Boundary) {
    && r < |h| && start + rule.debounceCycles <= r + 1
    && forall j :: 0 <= j <= r && r < j + rule.debounceCycles ==> Violates(rule, boundary, h[j].value)
  }

  ghost predicate NoWindow(h: seq<Reading>, rule: AlarmRule, start: nat, upTo: nat) {
    forall r: nat, b: Boundary :: start <= r < upTo ==> !Window(h, rule, start, r, b)
  }

  ghost predicate NeverNormal(h: seq<Reading>, rule: AlarmRule, boundary: Boundary, from: nat, upTo: nat) {
    forall j :: from <= j < upTo && j < |h| ==> !IsBackToNormal(rule, boundary, h[j].value)
  }

  /**
   The episode starts with the first full window after `start` and ends with the first later reading inside
   the hysteresis zone.
   */
  ghost predicate EpisodeAt(h: seq<Reading>, rule: AlarmRule, start: nat, e: Episode) {
    && Window(h, rule, start, e.raise, e.boundary)
    && NoWindow(h, rule, start, e.raise)
    && match e.clear
       case Some(c) =>
         && e.raise < c < |h|
         && IsBackToNormal(rule, e.boundary, h[c].value)
         && NeverNormal(h, rule, e.boundary, e.raise + 1, c)
       case None => NeverNormal(h, rule, e.boundary, e.raise + 1, |h|)
  }

  /** Where the wait for episode i begins: right after the reading that cleared the one before. */
  function StartOf(eps: seq<Episode>, i: nat): nat
    requires i <= |eps|
  {
    if i == 0 then 0 else eps[i - 1].clear.GetOr(0) + 1
  }

  predicate Open(eps: seq<Episode>) {
    eps != [] && eps[|eps| - 1].clear.None?
  }

  ghost predicate Explains(h: seq<Reading>, rule: AlarmRule, eps: seq<Episode>) {
    && (forall i :: 0 <= i < |eps| ==> EpisodeAt(h, rule, StartOf(eps, i), eps[i]))
    && (forall i :: 0 <= i < |eps| - 1 ==> eps[i].clear.Some?)
    && (!Open(eps) ==> NoWindow(h, rule, StartOf(eps, |eps|), |h|))
  }

  /** A list of readings has at most one explanation. */
  lemma {:induction false} ExplanationIsUnique(h: seq<Reading>, rule: AlarmRule, a: seq<Episode>, b: seq<Episode>)
    requires ValidRule(rule) && Explains(h, rule, a) && Explains(h, rule, b)
    ensures a == b
  {
    hide Explains, ValidRule;
    CommonPrefix(h, rule, a, b, if |a| < |b| then |a| else |b|);
    assert a == a[..|a|] && b == b[..|b|];
    if |a| < |b| {
      NextEpisodeHasAWindow(h, rule, b, |a|);
      LeavesNoWindow(h, rule, a);
    } else if |b| < |a| {
      NextEpisodeHasAWindow(h, rule, a, |b|);
      LeavesNoWindow(h, rule, b);
    }
  }

  lemma LeavesNoWindow(h: seq<Reading>, rule: AlarmRule, eps: seq<Episode>)
    requires Explains(h, rule, eps)
    ensures eps == [] || eps[|eps| - 1].clear.Some? ==> NoWindow(h, rule, StartOf(eps, |eps|), |h|)
  {
    hide NoWindow;
  }

  lemma NextEpisodeHasAWindow(h: seq<Reading>, rule: AlarmRule, eps: seq<Episode>, n: nat)
    requires ValidRule(rule) && Explains(h, rule, eps) && n < |eps|
    ensures !NoWindow(h, rule, StartOf(eps, n), |h|)
    ensures n > 0 ==> eps[n - 1].clear.Some?
  {
    hide NeverNormal, IsBackToNormal, Violates;
    assert EpisodeAt(h, rule, StartOf(eps, n), eps[n]);
    assert Window(h, rule, StartOf(eps, n), eps[n].raise, eps[n].boundary);
  }

  lemma {:induction false} CommonPrefix(h: seq<Reading>, rule: AlarmRule, a: seq<Episode>, b: seq<Episode>, n: nat)
    requires ValidRule(rule) && Explains(h, rule, a) && Explains(h, rule, b) && n <= |a| && n <= |b|
    ensures a[..n] == b[..n]
  {
    hide Explains, ValidRule;
    if n > 0 {
      CommonPrefix(h, rule, a, b, n - 1);
      assert n > 1 ==> a[n - 2] == a[..n - 1][n - 2] && b[n - 2] == b[..n - 1][n - 2];
      assert StartOf(a, n - 1) == StartOf(b, n - 1);
      EpisodeOf(h, rule, a, n - 1);
      EpisodeOf(h, rule, b, n - 1);
      SameEpisode(h, rule, StartOf(a, n - 1), a[n - 1], b[n - 1]);
      assert a[..n] == a[..n - 1] + [a[n - 1]] && b[..n] == b[..n - 1] + [b[n - 1]];
    }
  }

  lemma EpisodeOf(h: seq<Reading>, rule: AlarmRule, eps: seq<Episode>, i: nat)
    requires Explains(h, rule, eps) && i < |eps|
    ensures EpisodeAt(h, rule, StartOf(eps, i), eps[i])
  {
    hide EpisodeAt;
  }

  lemma SameEpisode(h: seq<Reading>, rule: AlarmRule, start: nat, a: Episode, b: Episode)
    requires ValidRule(rule) && EpisodeAt(h, rule, start, a) && EpisodeAt(h, rule, start, b)
    ensures a == b
  {
    assert a.raise == b.raise;
    assert Violates(rule, a.boundary, h[a.raise].value) && Violates(rule, b.boundary, h[a.raise].value);
    assert a.boundary == b.boundary;
    if a.clear.Some? && b.clear.Some? {
      assert a.clear.value == b.clear.value;
    }
  }

  // ---------------------------------------------------------------- the engine over readings

  /** The engine under one rule, on usable readings only. */
  function ReadingStep(deviceCode: string, rule: AlarmRule, reading: Reading, prev: MetricState)
    : (MetricState, Option<Transition>)
  {
    var cycle := Cycle(deviceCode, rule.mode, map[], [], reading.at);
    StepWith(cycle, rule.metricKey, prev, Some(rule), Some(reading.value))
  }

  function ReadingRun(h: seq<Reading>, deviceCode: string, rule: AlarmRule): (MetricState, seq<Transition>) {
    if h == [] then (IDLE, [])
    else
      var n := |h| - 1;
      var (state, log) := ReadingRun(h[..n], deviceCode, rule);
      var step := ReadingStep(deviceCode, rule, h[n], state);
      (step.0, log + AsSeq(step.1))
  }

  /** The rule in force is the same in every cycle, and the mode is one that watches it. */
  ghost predicate Steady(cycles: seq<Cycle>, deviceCode: string, rule: AlarmRule) {
    && (rule.mode == Cooling || rule.mode == Defrost)
    && forall c :: c in cycles ==>
         c.deviceCode == deviceCode && c.mode == rule.mode && RuleOf(c, rule.metricKey) == Some(rule)
  }

  /** What a cycle tells of the metric: a counted sample, told by its quality, or nothing. */
  function ReadingOf(cycle: Cycle, metricKey: string): Option<Reading> {
    var value := CountedValue(cycle, metricKey);
    if value.Some? then Some(Reading(value.value, cycle.nowMs)) else None
  }

  function Readings(cycles: seq<Cycle>, metricKey: string): seq<Reading> {
    if cycles == [] then []
    else
      var n := |cycles| - 1;
      Readings(cycles[..n], metricKey) + AsSeq(ReadingOf(cycles[n], metricKey))
  }

  /** Samples that do not count change nothing: the run depends on the good, stale and substituted readings alone. */
  lemma {:induction false} UnusableSamplesAreSkipped(cycles: seq<Cycle>, deviceCode: string, rule: AlarmRule)
    requires Steady(cycles, deviceCode, rule)
    ensures MetricRun(cycles, rule.metricKey, IDLE) == ReadingRun(Readings(cycles, rule.metricKey), deviceCode, rule)
  {
    hide DetectViolation, IsBackToNormal, RuleOf, CountedValue, UsableValue;
    if cycles != [] {
      var n := |cycles| - 1;
      UnusableSamplesAreSkipped(cycles[..n], deviceCode, rule);
      assert cycles[n] in cycles;
      UsableIsCounted(cycles[n], rule.metricKey);
      var before := Readings(cycles[..n], rule.metricKey);
      var reading := ReadingOf(cycles[n], rule.metricKey);
      if reading.Some? {
        assert (before + [reading.value])[..|before|] == before;
        var state := ReadingRun(before, deviceCode, rule).0;
        StepReads(cycles[n], rule, state);
      } else {
        assert Readings(cycles, rule.metricKey) == before;
        var (state, log) := MetricRun(cycles[..n], rule.metricKey, IDLE);
        assert RuleOf(cycles[n], rule.metricKey) == Some(rule) && UsableValue(cycles[n], rule.metricKey).None?;
        assert StepMetric(cycles[n], rule.metricKey, state) == (state, None);
        assert log + AsSeq(None) == log;
      }
    }
  }

  lemma StepReads(cycle: Cycle, rule: AlarmRule, prev: MetricState)
    requires !Muted(rule.mode) && cycle.mode == rule.mode && RuleOf(cycle, rule.metricKey) == Some(rule)
    requires ReadingOf(cycle, rule.metricKey).Some?
    ensures StepMetric(cycle, rule.metricKey, prev) ==
            ReadingStep(cycle.deviceCode, rule, ReadingOf(cycle, rule.metricKey).value, prev)
  {
    hide DetectViolation, IsBackToNormal, RuleOf;
    UsableIsCounted(cycle, rule.metricKey);
  }

  // ---------------------------------------------------------------- the engine tells the same story

  function RaiseOf(h: seq<Reading>, deviceCode: string, rule: AlarmRule, e: Episode): Transition
    requires e.raise < |h|
  {
    Transition(deviceCode, rule.metricKey, rule.mode, ToRaised, rule.severity, Some(h[e.raise].value),
               ThresholdOf(rule, e.boundary), e.boundary, h[e.raise].at, h[e.raise].at)
  }

  function ClearOf(h: seq<Reading>, deviceCode: string, rule: AlarmRule, e: Episode): Option<Transition>
    requires e.raise < |h|
  {
    if e.clear.Some? && e.clear.value < |h| then
      var c := e.clear.value;
      Some(Transition(deviceCode, rule.metricKey, rule.mode, ToCleared, rule.severity, Some(h[c].value),
                      ThresholdOf(rule, e.boundary), e.boundary, h[c].at, h[e.raise].at))
    else None
  }

  predicate InRange(h: seq<Reading>, eps: seq<Episode>) {
    forall i :: 0 <= i < |eps| ==> eps[i].raise < |h| && (eps[i].clear.Some? ==> eps[i].clear.value < |h|)
  }

  /** The transitions an explanation calls for. */
  function LogOf(h: seq<Reading>, deviceCode: string, rule: AlarmRule, eps: seq<Episode>): seq<Transition>
    requires InRange(h, eps)
  {
    if eps == [] then []
    else
      var n := |eps| - 1;
      LogOf(h, deviceCode, rule, eps[..n]) + [RaiseOf(h, deviceCode, rule, eps[n])]
      + AsSeq(ClearOf(h, deviceCode, rule, eps[n]))
  }

  /** The state after the readings is what the last episode, or the run of violations since it, says. */
  ghost predicate StateFits(h: seq<Reading>, rule: AlarmRule, eps: seq<Episode>, state: MetricState) {
    if Open(eps) then
      var e := eps[|eps| - 1];
      && e.raise < |h|
      && state == Raised(e.boundary, rule.severity, ThresholdOf(rule, e.boundary), h[e.raise].at, rule.mode)
    else
      && state.Quiet?
      && state.violationCycles < rule.debounceCycles
      && Pending(h, rule, StartOf(eps, |eps|), state)
  }

  /** `violationCycles` counts exactly the readings at the end of the list that violate the pending boundary. */
  ghost predicate Pending(h: seq<Reading>, rule: AlarmRule, start: nat, state: MetricState)
    requires state.Quiet?
  {
    var n := state.violationCycles;
    && start + n <= |h|
    && (state.pending.None? <==> n == 0)
    && (state.pending.Some? ==> forall j :: |h| - n <= j < |h| ==> Violates(rule, state.pending.value, h[j].value))
    && (start + n < |h| ==>
          var before := h[|h| - n - 1].value;
          match state.pending
          case Some(b) => !Violates(rule, b, before)
          case None => !Violates(rule, AtMin, before) && !Violates(rule, AtMax, before))
  }

  lemma WindowsStay(h: seq<Reading>, x: Reading, rule: AlarmRule, start: nat, upTo: nat)
    requires upTo <= |h| && rule.debounceCycles >= 1
    ensures NoWindow(h, rule, start, upTo) ==> NoWindow(h + [x], rule, start, upTo)
    ensures forall r: nat, b: Boundary :: Window(h, rule, start, r, b) ==> Window(h + [x], rule, start, r, b)
  {
    forall r: nat, b: Boundary | r < |h| ensures Window(h + [x], rule, start, r, b) == Window(h, rule, start, r, b) {
      assert forall j :: 0 <= j <= r ==> (h + [x])[j] == h[j];
    }
  }

  /** An episode that is over, or still open after one more reading outside the hysteresis zone, stays as it was. */
  lemma EpisodeStays(h: seq<Reading>, x: Reading, rule: AlarmRule, start: nat, e: Episode)
    requires rule.debounceCycles >= 1 && EpisodeAt(h, rule, start, e)
    requires e.clear.None? ==> !IsBackToNormal(rule, e.boundary, x.value)
    ensures EpisodeAt(h + [x], rule, start, e)
  {
    WindowsStay(h, x, rule, start, e.raise);
    assert forall j :: 0 <= j < |h| ==> (h + [x])[j] == h[j];
  }

  lemma EpisodesStay(h: seq<Reading>, x: Reading, rule: AlarmRule, eps: seq<Episode>)
    requires ValidRule(rule) && Explains(h, rule, eps)
    ensures forall i :: 0 <= i < |eps| && eps[i].clear.Some? ==> EpisodeAt(h + [x], rule, StartOf(eps, i), eps[i])
  {
    hide EpisodeAt, NoWindow;
    forall i | 0 <= i < |eps| && eps[i].clear.Some? ensures EpisodeAt(h + [x], rule, StartOf(eps, i), eps[i]) {
      EpisodeStays(h, x, rule, StartOf(eps, i), eps[i]);
    }
  }

  lemma {:induction false} LogStays(h: seq<Reading>, x: Reading, deviceCode: string, rule: AlarmRule, eps: seq<Episode>)
    requires InRange(h, eps)
    ensures LogOf(h + [x], deviceCode, rule, eps) == LogOf(h, deviceCode, rule, eps)
  {
    if eps != [] {
      LogStays(h, x, deviceCode, rule, eps[..|eps| - 1]);
    }
  }

  /** All that the engine's state and log after `h` have to do with an explanation of `h`. */
  ghost predicate Tells(
    h: seq<Reading>, deviceCode: string, rule: AlarmRule, eps: seq<Episode>, state: MetricState, log: seq<Transition>)
  {
    Explains(h, rule, eps) && InRange(h, eps) && StateFits(h, rule, eps, state)
      && log == LogOf(h, deviceCode, rule, eps)
  }

  lemma StaysOpen(
    h: seq<Reading>, x: Reading, deviceCode: string, rule: AlarmRule, eps: seq<Episode>, state: MetricState,
    log: seq<Transition>)
    requires ValidRule(rule) && Tells(h, deviceCode, rule, eps, state, log) && Open(eps)
    requires !IsBackToNormal(rule, eps[|eps| - 1].boundary, x.value)
    ensures Tells(h + [x], deviceCode, rule, eps, state, log)
  {
    hide IsBackToNormal, Violates, EpisodeAt;
    EpisodesStay(h, x, rule, eps);
    LogStays(h, x, deviceCode, rule, eps);
    EpisodeStays(h, x, rule, StartOf(eps, |eps| - 1), eps[|eps| - 1]);
  }

  lemma Clears(
    h: seq<Reading>, x: Reading, deviceCode: string, rule: AlarmRule, eps: seq<Episode>, state: MetricState,
    log: seq<Transition>)
    requires ValidRule(rule) && Tells(h, deviceCode, rule, eps, state, log) && Open(eps)
    requires IsBackToNormal(rule, eps[|eps| - 1].boundary, x.value)
    ensures var n := |eps| - 1;
            var closed := eps[n].(clear := Some(|h|));
            Tells(h + [x], deviceCode, rule, eps[..n] + [closed], IDLE,
                  log + AsSeq(ClearOf(h + [x], deviceCode, rule, closed)))
  {
    hide IsBackToNormal, Violates, Explains, LogOf, ClearOf;
    ClosedExplains(h, x, rule, eps);
    ClosedLog(h, x, deviceCode, rule, eps);
    NothingPending(h + [x], rule);
  }

  lemma NothingPending(h: seq<Reading>, rule: AlarmRule)
    ensures Pending(h, rule, |h|, IDLE)
  {
  }

  lemma ClosedExplains(h: seq<Reading>, x: Reading, rule: AlarmRule, eps: seq<Episode>)
    requires ValidRule(rule) && Explains(h, rule, eps) && Open(eps)
    requires IsBackToNormal(rule, eps[|eps| - 1].boundary, x.value)
    ensures var n := |eps| - 1;
            Explains(h + [x], rule, eps[..n] + [eps[n].(clear := Some(|h|))])
  {
    hide IsBackToNormal, Violates, EpisodeAt, NoWindow;
    var n := |eps| - 1;
    var closed := eps[n].(clear := Some(|h|));
    var next := eps[..n] + [closed];
    EpisodesStay(h, x, rule, eps);
    assert forall i :: 0 <= i <= n ==> StartOf(next, i) == StartOf(eps, i);
    EpisodeOf(h, rule, eps, n);
    EpisodeCloses(h, x, rule, StartOf(eps, n), eps[n]);
    NothingToSearch(h + [x], rule, |h| + 1);
    forall i | 0 <= i < |next| ensures EpisodeAt(h + [x], rule, StartOf(next, i), next[i]) {
      assert i < n ==> next[i] == eps[i] && eps[i].clear.Some?;
    }
  }

  lemma ClosedLog(h: seq<Reading>, x: Reading, deviceCode: string, rule: AlarmRule, eps: seq<Episode>)
    requires Open(eps) && InRange(h, eps)
    ensures var n := |eps| - 1;
            var closed := eps[n].(clear := Some(|h|));
            && InRange(h + [x], eps[..n] + [closed])
            && LogOf(h + [x], deviceCode, rule, eps[..n] + [closed]) ==
               LogOf(h, deviceCode, rule, eps) + AsSeq(ClearOf(h + [x], deviceCode, rule, closed))
  {
    var n := |eps| - 1;
    var closed := eps[n].(clear := Some(|h|));
    LogStays(h, x, deviceCode, rule, eps[..n]);
    assert (eps[..n] + [closed])[..n] == eps[..n];
  }

  lemma EpisodeCloses(h: seq<Reading>, x: Reading, rule: AlarmRule, start: nat, e: Episode)
    requires ValidRule(rule) && EpisodeAt(h, rule, start, e) && e.clear.None?
    requires IsBackToNormal(rule, e.boundary, x.value)
    ensures EpisodeAt(h + [x], rule, start, e.(clear := Some(|h|)))
  {
    hide IsBackToNormal, Violates;
    WindowsStay(h, x, rule, start, e.raise);
    assert forall j :: 0 <= j < |h| ==> (h + [x])[j] == h[j];
  }

  lemma NothingToSearch(h: seq<Reading>, rule: AlarmRule, start: nat)
    ensures NoWindow(h, rule, start, start)
  {
  }

  /** One more reading keeps the count of trailing violations exact. */
  lemma PendingMoves(h: seq<Reading>, x: Reading, rule: AlarmRule, start: nat, state: MetricState, b: Boundary)
    requires ValidRule(rule) && state.Quiet? && Pending(h, rule, start, state) && Violates(rule, b, x.value)
    ensures Pending(h + [x], rule, start,
                    Quiet(Some(b), if state.pending == Some(b) then state.violationCycles + 1 else 1))
  {
  }

  lemma PendingEnds(h: seq<Reading>, x: Reading, rule: AlarmRule, start: nat, state: MetricState)
    requires state.Quiet? && Pending(h, rule, start, state)
    requires !Violates(rule, AtMin, x.value) && !Violates(rule, AtMax, x.value)
    ensures Pending(h + [x], rule, start, IDLE)
  {
  }

  /** Fewer trailing violations than the debounce asks for: no window ends at the last reading. */
  lemma TooFewYet(h: seq<Reading>, rule: AlarmRule, start: nat, state: MetricState)
    requires ValidRule(rule) && state.Quiet? && h != [] && Pending(h, rule, start, state)
    requires state.violationCycles < rule.debounceCycles
    requires NoWindow(h, rule, start, |h| - 1)
    ensures NoWindow(h, rule, start, |h|)
  {
    var n := |h| - 1;
    forall b | start <= n ensures !Window(h, rule, start, n, b) {
      var k := |h| - state.violationCycles;
      if state.pending == Some(b) || state.pending.None? {
        assert start + state.violationCycles < |h| ==> !Violates(rule, b, h[k - 1].value);
      } else {
        assert Violates(rule, state.pending.value, h[n].value);
        assert !Violates(rule, b, h[n].value);
      }
    }
  }

  lemma StaysQuiet(
    h: seq<Reading>, x: Reading, deviceCode: string, rule: AlarmRule, eps: seq<Episode>, state: MetricState,
    log: seq<Transition>, next: MetricState)
    requires ValidRule(rule) && Tells(h, deviceCode, rule, eps, state, log) && !Open(eps)
    requires next.Quiet? && next.violationCycles < rule.debounceCycles
    requires Pending(h + [x], rule, StartOf(eps, |eps|), next)
    ensures Tells(h + [x], deviceCode, rule, eps, next, log)
  {
    hide IsBackToNormal, Violates, EpisodeAt, NoWindow, Pending;
    EpisodesStay(h, x, rule, eps);
    LogStays(h, x, deviceCode, rule, eps);
    WindowsStay(h, x, rule, StartOf(eps, |eps|), |h|);
    TooFewYet(h + [x], rule, StartOf(eps, |eps|), next);
  }

  lemma Raises(
    h: seq<Reading>, x: Reading, deviceCode: string, rule: AlarmRule, eps: seq<Episode>, state: MetricState,
    log: seq<Transition>, b: Boundary)
    requires ValidRule(rule) && Tells(h, deviceCode, rule, eps, state, log) && !Open(eps)
    requires Pending(h + [x], rule, StartOf(eps, |eps|), Quiet(Some(b), rule.debounceCycles))
    ensures var e := Episode(|h|, b, None);
            Tells(h + [x], deviceCode, rule, eps + [e],
                  Raised(b, rule.severity, ThresholdOf(rule, b), x.at, rule.mode),
                  log + [RaiseOf(h + [x], deviceCode, rule, e)])
  {
    hide IsBackToNormal, Violates, Explains, Pending, LogOf;
    OpenedLog(h, x, deviceCode, rule, eps, b);
    OpenedExplains(h, x, rule, eps, b);
  }

  lemma OpenedExplains(h: seq<Reading>, x: Reading, rule: AlarmRule, eps: seq<Episode>, b: Boundary)
    requires ValidRule(rule) && Explains(h, rule, eps) && !Open(eps)
    requires Pending(h + [x], rule, StartOf(eps, |eps|), Quiet(Some(b), rule.debounceCycles))
    ensures Explains(h + [x], rule, eps + [Episode(|h|, b, None)])
  {
    hide IsBackToNormal, Violates, EpisodeAt, NoWindow, Pending;
    var next := eps + [Episode(|h|, b, None)];
    EpisodesStay(h, x, rule, eps);
    assert forall i :: 0 <= i <= |eps| ==> StartOf(next, i) == StartOf(eps, i);
    EpisodeOpens(h, x, rule, StartOf(eps, |eps|), b);
    forall i | 0 <= i < |next| ensures EpisodeAt(h + [x], rule, StartOf(next, i), next[i]) {
      assert i < |eps| ==> next[i] == eps[i] && eps[i].clear.Some?;
    }
  }

  lemma OpenedLog(
    h: seq<Reading>, x: Reading, deviceCode: string, rule: AlarmRule, eps: seq<Episode>, b: Boundary)
    requires InRange(h, eps)
    ensures var e := Episode(|h|, b, None);
            && InRange(h + [x], eps + [e])
            && LogOf(h + [x], deviceCode, rule, eps + [e]) ==
               LogOf(h, deviceCode, rule, eps) + [RaiseOf(h + [x], deviceCode, rule, e)]
  {
    LogStays(h, x, deviceCode, rule, eps);
    assert (eps + [Episode(|h|, b, None)])[..|eps|] == eps;
  }

  lemma EpisodeOpens(h: seq<Reading>, x: Reading, rule: AlarmRule, start: nat, b: Boundary)
    requires ValidRule(rule) && NoWindow(h, rule, start, |h|)
    requires Pending(h + [x], rule, start, Quiet(Some(b), rule.debounceCycles))
    ensures EpisodeAt(h + [x], rule, start, Episode(|h|, b, None))
  {
    WindowsStay(h, x, rule, start, |h|);
  }

  lemma StepTells(
    h: seq<Reading>, x: Reading, deviceCode: string, rule: AlarmRule, eps: seq<Episode>, state: MetricState,
    log: seq<Transition>)
    returns (next: seq<Episode>)
    requires ValidRule(rule) && !Muted(rule.mode) && Tells(h, deviceCode, rule, eps, state, log)
    ensures var step := ReadingStep(deviceCode, rule, x, state);
            Tells(h + [x], deviceCode, rule, next, step.0, log + AsSeq(step.1))
  {
    hide IsBackToNormal, Violates, DetectViolation, Explains, ValidRule, Pending, LogOf, InRange;
    next := eps;
    var n := |eps| - 1;
    if Open(eps) {
      if IsBackToNormal(rule, eps[n].boundary, x.value) {
        Clears(h, x, deviceCode, rule, eps, state, log);
        next := eps[..n] + [eps[n].(clear := Some(|h|))];
      } else {
        StaysOpen(h, x, deviceCode, rule, eps, state, log);
      }
    } else {
      var start := StartOf(eps, |eps|);
      DetectorFinds(rule, x.value, AtMin);
      DetectorFinds(rule, x.value, AtMax);
      match DetectViolation(rule, x.value)
      case None =>
        PendingEnds(h, x, rule, start, state);
        StaysQuiet(h, x, deviceCode, rule, eps, state, log, IDLE);
      case Some(found) =>
        var b := found.0;
        var cycles := if state.pending == Some(b) then state.violationCycles + 1 else 1;
        PendingMoves(h, x, rule, start, state, b);
        if cycles < rule.debounceCycles {
          StaysQuiet(h, x, deviceCode, rule, eps, state, log, Quiet(Some(b), cycles));
        } else {
          Raises(h, x, deviceCode, rule, eps, state, log, b);
          next := eps + [Episode(|h|, b, None)];
        }
    }
  }

  lemma NothingToTell(deviceCode: string, rule: AlarmRule)
    requires ValidRule(rule)
    ensures Tells([], deviceCode, rule, [], IDLE, [])
  {
  }

  /** Every list of readings has an explanation, and the engine's state and log are the ones it calls for. */
  lemma {:induction false} EngineExplains(h: seq<Reading>, deviceCode: string, rule: AlarmRule)
    returns (eps: seq<Episode>)
    requires ValidRule(rule) && !Muted(rule.mode)
    ensures var run := ReadingRun(h, deviceCode, rule);
            Tells(h, deviceCode, rule, eps, run.0, run.1)
  {
    hide ReadingStep, ValidRule, Tells;
    if h == [] {
      eps := [];
      NothingToTell(deviceCode, rule);
    } else {
      var n := |h| - 1;
      var before := EngineExplains(h[..n], deviceCode, rule);
      var (state, log) := ReadingRun(h[..n], deviceCode, rule);
      eps := StepTells(h[..n], h[n], deviceCode, rule, before, state, log);
      assert h[..n] + [h[n]] == h;
    }
  }

  /**
   The engine refines the declarative history. Under one rule in an unmuted mode, whatever the samples: the
   counted readings have exactly one explanation; it decides the metric's whole share of the device's log; and
   the metric is raised after the run exactly when the last episode of the explanation is still open.
   */
  lemma EngineRefinesHistory(cycles: seq<Cycle>, deviceCode: string, rule: AlarmRule) returns (eps: seq<Episode>)
    requires ValidRule(rule) && Steady(cycles, deviceCode, rule)
    ensures var h := Readings(cycles, rule.metricKey);
            var run := DeviceRun(cycles, map[]);
            && Explains(h, rule, eps) && InRange(h, eps)
            && (forall other :: Explains(h, rule, other) ==> other == eps)
            && Filter(run.1, OfMetric(rule.metricKey)) == LogOf(h, deviceCode, rule, eps)
            && StateFits(h, rule, eps, PrevOf(run.0, rule.metricKey))
            && (PrevOf(run.0, rule.metricKey).Raised? <==> Open(eps))
  {
    hide Explains, ValidRule, MetricRun, DeviceRun;
    var h := Readings(cycles, rule.metricKey);
    eps := EngineExplains(h, deviceCode, rule);
    DeviceRunsByMetric(cycles, map[], rule.metricKey);
    UnusableSamplesAreSkipped(cycles, deviceCode, rule);
    forall other | Explains(h, rule, other) ensures other == eps {
      ExplanationIsUnique(h, rule, other, eps);
    }
  }
}
