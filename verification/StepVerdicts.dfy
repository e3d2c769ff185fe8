/** What the calls of one step say about it, and what the calls of a whole run say about its steps. */
module StepVerdicts {
  import opened Wrappers
  import opened Arithmetic
  import opened FaultBook
  import opened ScenarioStand

  datatype StepStatus = Pending | Running | Passed | Failed | Skipped

  datatype Failure = NoFacts | StepFailed(index: nat) | CleanUpFailed(targets: seq<FaultTarget>)

  datatype ScenarioResult = ScenarioResult(statuses: seq<StepStatus>, failures: seq<Failure>, passed: bool)

  predicate AllPassed(statuses: seq<StepStatus>) {
    forall i :: 0 <= i < |statuses| ==> statuses[i].Passed?
  }

  /** What does not change while a run goes on. */
  datatype Terms = Terms(judge: Judge, pollMs: int, idleMs: int, deadline: int, dlqAtStart: int)

  /** One step of a run: when its turn came, when it began and ended by its own clock readings, and its calls. */
  datatype Stretch = Stretch(entered: int, begun: int, ended: int, calls: seq<Call>)

  // ---------------------------------------------------------------- what polling saw

  predicate Held(call: Call, judge: Judge, probe: Probe, context: ProbeContext) {
    call.Asking? && call.facts.Some? && judge(probe, call.facts.value, context)
  }

  /** The look was answered, and the probe did not hold. */
  predicate InVain(call: Call, judge: Judge, probe: Probe, context: ProbeContext) {
    call.Asking? && call.facts.Some? && !judge(probe, call.facts.value, context)
  }

  predicate Lost(call: Call) {
    call.Asking? && call.facts.None?
  }

  /** Durations of the different polled cycles of a line that finished at or after `since`, as the polls saw them. */
  function Measured(polls: seq<Call>, line: string, since: int): (set<int>, seq<int>) {
    if polls == [] then ({}, [])
    else
      var (seen, durations) := Measured(polls[..|polls| - 1], line, since);
      var last := polls[|polls| - 1];
      if last.Asking? && last.facts.Some? && line in last.facts.value.lines && last.facts.value.lines[line].Some? then
        var cycle := last.facts.value.lines[line].value;
        if cycle.at in seen then (seen, durations)
        else if cycle.polled && cycle.at >= since then (seen + {cycle.at}, durations + [cycle.durationMs])
        else (seen + {cycle.at}, durations)
      else (seen, durations)
  }

  /** The cycle one poll shows of the line, if it shows one. */
  function CycleIn(facts: Option<Facts>, line: string): Option<LineCycle> {
    if facts.Some? && line in facts.value.lines then facts.value.lines[line] else None
  }

  lemma MeasuredOneMore(polls: seq<Call>, at: int, facts: Option<Facts>, line: string, since: int)
    ensures var (seen, durations) := Measured(polls, line, since);
            var cycle := CycleIn(facts, line);
            Measured(polls + [Asking(at, facts)], line, since) ==
            if cycle.None? || cycle.value.at in seen then (seen, durations)
            else (seen + {cycle.value.at},
                  durations + if cycle.value.polled && cycle.value.at >= since then [cycle.value.durationMs] else [])
  {
    assert (polls + [Asking(at, facts)])[..|polls|] == polls;
    var durations := Measured(polls, line, since).1;
    assert durations + [] == durations;
  }

  function Sum(xs: seq<int>): int {
    if xs == [] then 0 else Sum(xs[..|xs| - 1]) + xs[|xs| - 1]
  }

  function Average(xs: seq<int>): real
    requires xs != []
  {
    Sum(xs) as real / |xs| as real
  }

  /** By how much the numbers miss a value, all together. */
  function TotalOff(xs: seq<int>, a: real): real {
    if xs == [] then 0.0 else xs[0] as real - a + TotalOff(xs[1..], a)
  }

  lemma {:induction false} TotalOffInParts(xs: seq<int>, x: int, a: real)
    ensures TotalOff(xs + [x], a) == TotalOff(xs, a) + (x as real - a)
  {
    if xs == [] {
      assert [x][1..] == [];
    } else {
      assert (xs + [x])[1..] == xs[1..] + [x];
      TotalOffInParts(xs[1..], x, a);
    }
  }

  lemma {:induction false} TotalOffIsSum(xs: seq<int>, a: real)
    ensures TotalOff(xs, a) == Sum(xs) as real - |xs| as real * a
  {
    if xs != [] {
      var n := |xs| - 1;
      TotalOffIsSum(xs[..n], a);
      assert xs == xs[..n] + [xs[n]];
      TotalOffInParts(xs[..n], xs[n], a);
      assert |xs| as real * a == n as real * a + a;
    }
  }

  /** The average is the one value from which the durations, taken together, do not stray. */
  lemma AverageBalances(xs: seq<int>, a: real)
    requires xs != []
    ensures TotalOff(xs, a) == 0.0 <==> a == Average(xs)
  {
    hide Sum, TotalOff;
    TotalOffIsSum(xs, a);
    QuotientIff(Sum(xs) as real, |xs| as real, a);
  }

  lemma QuotientIff(sum: real, n: real, a: real)
    requires n > 0.0
    ensures a == sum / n <==> sum - n * a == 0.0
  {
    var q := sum / n;
    assert q * n == sum;
    if n * a == sum {
      assert (q - a) * n == 0.0;
    }
  }

  /** When a new cycle was last measured: the time of that look, or the beginning. */
  function LastNew(polls: seq<Call>, line: string, since: int): int {
    if polls == [] then since
    else
      var front := polls[..|polls| - 1];
      if Measured(polls, line, since).1 != Measured(front, line, since).1 then polls[|polls| - 1].at
      else LastNew(front, line, since)
  }

  // ---------------------------------------------------------------- the verdict on one step

  /** Every look but the last came before the end, and the next one a poll period later, or at the end. */
  ghost predicate Paced(polls: seq<Call>, pollMs: int, end: int) {
    forall i :: 0 <= i < |polls| - 1 ==>
      polls[i].at < end && polls[i + 1].at >= Min(polls[i].at + pollMs, end)
  }

  /** The same for a baseline, whose end moves with every new cycle. */
  ghost predicate PacedByCycles(polls: seq<Call>, line: string, since: int, terms: Terms) {
    forall i :: 0 <= i < |polls| - 1 ==> InTimeAt(polls, i, line, since, terms)
  }

  ghost predicate InTimeAt(polls: seq<Call>, i: nat, line: string, since: int, terms: Terms)
    requires i + 1 < |polls|
  {
    NextInTime(polls[..i + 1], polls[i + 1].at, line, since, terms)
  }

  ghost predicate NextInTime(polls: seq<Call>, next: int, line: string, since: int, terms: Terms)
    requires polls != []
  {
    var last := polls[|polls| - 1].at;
    && last < terms.deadline
    && next >= Min(last + terms.pollMs, Min(LastNew(polls, line, since) + terms.idleMs, terms.deadline))
  }

  ghost predicate AllAnswered(polls: seq<Call>) {
    forall i :: 0 <= i < |polls| ==> polls[i].Asking? && polls[i].facts.Some?
  }

  ghost predicate AllHeld(polls: seq<Call>, judge: Judge, probe: Probe, context: ProbeContext) {
    forall i :: 0 <= i < |polls| ==> Held(polls[i], judge, probe, context)
  }

  ghost predicate AllInVain(polls: seq<Call>, judge: Judge, probe: Probe, context: ProbeContext) {
    forall i :: 0 <= i < |polls| ==> InVain(polls[i], judge, probe, context)
  }

  ghost predicate Timed(x: Stretch) {
    x.entered <= x.begun <= x.ended && forall i :: 0 <= i < |x.calls| ==> x.begun <= x.calls[i].at <= x.ended
  }

  /** What the calls of a passed step are. */
  ghost predicate Passes(step: ScenarioStep, x: Stretch, terms: Terms, baselines: map<string, real>) {
    var context := ProbeContext(baselines, terms.dlqAtStart);
    var n := |x.calls| - 1;
    && n >= 0
    && match step
       case Inject(request) => n == 0 && x.calls[0] == Injecting(x.calls[0].at, request, true)
       case ClearFaults(filter) => n == 0 && x.calls[0] == Clearing(x.calls[0].at, filter, true)
       case SimScenario(name) =>
         n == 0 && x.calls[0].Simulating? && x.calls[0].name == name && x.calls[0].told.Some?
       case Baseline(line, samples, _) =>
         && AllAnswered(x.calls) && PacedByCycles(x.calls, line, x.begun, terms)
         && |Measured(x.calls[..n], line, x.begun).1| < |Measured(x.calls, line, x.begun).1| == samples
       case WaitFor(probe, timeoutSec) =>
         && AllInVain(x.calls[..n], terms.judge, probe, context)
         && Held(x.calls[n], terms.judge, probe, context)
         && Paced(x.calls, terms.pollMs, Min(x.begun + timeoutSec * 1000, terms.deadline))
       case Hold(probe, forSec) =>
         && AllHeld(x.calls, terms.judge, probe, context)
         && x.ended >= x.begun + forSec * 1000
         && Paced(x.calls, terms.pollMs, Min(x.begun + forSec * 1000, terms.deadline))
  }

  /** What the calls of a failed step are: the last of them failed, or the time was up. */
  ghost predicate Fails(step: ScenarioStep, x: Stretch, terms: Terms, baselines: map<string, real>) {
    var context := ProbeContext(baselines, terms.dlqAtStart);
    var n := |x.calls| - 1;
    && n >= 0
    && match step
       case Inject(request) => n == 0 && x.calls[0] == Injecting(x.calls[0].at, request, false)
       case ClearFaults(filter) => n == 0 && x.calls[0] == Clearing(x.calls[0].at, filter, false)
       case SimScenario(name) =>
         n == 0 && x.calls[0].Simulating? && x.calls[0].name == name && x.calls[0].told.None?
       case Baseline(line, samples, _) =>
         && AllAnswered(x.calls[..n]) && PacedByCycles(x.calls, line, x.begun, terms) && x.calls[n].Asking?
         && |Measured(x.calls, line, x.begun).1| < samples
         && (Lost(x.calls[n])
             || x.ended >= LastNew(x.calls, line, x.begun) + terms.idleMs || x.ended >= terms.deadline)
       case WaitFor(probe, timeoutSec) =>
         var end := Min(x.begun + timeoutSec * 1000, terms.deadline);
         && AllInVain(x.calls[..n], terms.judge, probe, context)
         && (Lost(x.calls[n]) || (InVain(x.calls[n], terms.judge, probe, context) && x.ended >= end))
         && Paced(x.calls, terms.pollMs, end)
       case Hold(probe, forSec) =>
         var end := x.begun + forSec * 1000;
         && AllHeld(x.calls[..n], terms.judge, probe, context)
         && (Lost(x.calls[n]) || InVain(x.calls[n], terms.judge, probe, context)
             || (Held(x.calls[n], terms.judge, probe, context) && terms.deadline <= x.ended < end))
         && Paced(x.calls, terms.pollMs, Min(end, terms.deadline))
  }

  ghost predicate Verdict(step: ScenarioStep, ok: bool, x: Stretch, terms: Terms, baselines: map<string, real>) {
    Timed(x) && if ok then Passes(step, x, terms, baselines) else Fails(step, x, terms, baselines)
  }

  /** The calls of a step leave no choice: they never tell both of a passed and of a failed one. */
  lemma VerdictIsForced(step: ScenarioStep, x: Stretch, terms: Terms, baselines: map<string, real>)
    ensures !(Passes(step, x, terms, baselines) && Fails(step, x, terms, baselines))
  {
  }

  lemma EnteredEarlier(
    step: ScenarioStep, ok: bool, x: Stretch, entered: int, terms: Terms, baselines: map<string, real>)
    requires Verdict(step, ok, x, terms, baselines) && entered <= x.entered
    ensures Verdict(step, ok, x.(entered := entered), terms, baselines)
    ensures Stored(step, x.(entered := entered), baselines) == Stored(step, x, baselines)
  {
    hide Paced, AllInVain, AllHeld, AllAnswered, PacedByCycles, Measured, Average;
  }

  // ---------------------------------------------------------------- one look at a time

  ghost predicate Within(polls: seq<Call>, begun: int, now: int) {
    begun <= now && forall i :: 0 <= i < |polls| ==> begun <= polls[i].at <= now
  }

  /** The looks so far were at their pace, and it is time for the next. */
  ghost predicate Underway(polls: seq<Call>, begun: int, now: int, pollMs: int, end: int) {
    && Within(polls, begun, now) && Paced(polls, pollMs, end)
    && (polls != [] ==>
          polls[|polls| - 1].at < end && now >= Min(polls[|polls| - 1].at + pollMs, end))
  }

  lemma OneMoreLook(polls: seq<Call>, begun: int, now: int, call: Call, pollMs: int, end: int)
    requires Underway(polls, begun, now, pollMs, end) && now <= call.at
    ensures Within(polls + [call], begun, call.at) && Paced(polls + [call], pollMs, end)
  {
  }

  lemma NoLooks(begun: int, now: int, pollMs: int, end: int, judge: Judge, probe: Probe, context: ProbeContext)
    requires begun <= now
    ensures Underway([], begun, now, pollMs, end)
    ensures AllInVain([], judge, probe, context) && AllHeld([], judge, probe, context)
  {
  }

  lemma Later(polls: seq<Call>, begun: int, now: int, later: int)
    requires Within(polls, begun, now) && now <= later
    ensures Within(polls, begun, later)
  {
  }

  lemma Woke(polls: seq<Call>, begun: int, now: int, woke: int, pollMs: int, end: int)
    requires polls != [] && Within(polls, begun, now) && Paced(polls, pollMs, end)
    requires pollMs >= 1 && now < end && woke >= now + Min(pollMs, end - now)
    ensures Underway(polls, begun, woke, pollMs, end)
  {
  }

  lemma FollowsLooks(polls: seq<Call>, call: Call, judge: Judge, probe: Probe, context: ProbeContext)
    ensures AllHeld(polls, judge, probe, context) && Held(call, judge, probe, context) ==>
              AllHeld(polls + [call], judge, probe, context)
    ensures AllInVain(polls, judge, probe, context) && InVain(call, judge, probe, context) ==>
              AllInVain(polls + [call], judge, probe, context)
    ensures call.Asking? ==>
              Lost(call) || Held(call, judge, probe, context) || InVain(call, judge, probe, context)
    ensures !(Held(call, judge, probe, context) && InVain(call, judge, probe, context))
    ensures Lost(call) ==> !Held(call, judge, probe, context) && !InVain(call, judge, probe, context)
  {
  }

  /** A wait that has looked in vain so far looks once more. */
  lemma WaitLooks(
    polls: seq<Call>, begun: int, now: int, call: Call, probe: Probe, timeoutSec: nat, terms: Terms,
    baselines: map<string, real>)
    requires Underway(polls, begun, now, terms.pollMs, Min(begun + timeoutSec * 1000, terms.deadline))
    requires AllInVain(polls, terms.judge, probe, ProbeContext(baselines, terms.dlqAtStart))
    requires call.Asking? && now <= call.at
    ensures var (step, more) := (WaitFor(probe, timeoutSec), polls + [call]);
            var context := ProbeContext(baselines, terms.dlqAtStart);
            && (Lost(call) ==> Verdict(step, false, Stretch(begun, begun, call.at, more), terms, baselines))
            && (Held(call, terms.judge, probe, context) ==>
                  Verdict(step, true, Stretch(begun, begun, call.at, more), terms, baselines))
            && (InVain(call, terms.judge, probe, context) ==>
                  && AllInVain(more, terms.judge, probe, context)
                  && forall t :: t >= call.at && t >= Min(begun + timeoutSec * 1000, terms.deadline) ==>
                       Verdict(step, false, Stretch(begun, begun, t, more), terms, baselines))
  {
    hide Paced, AllInVain, InVain, Underway;
    FollowsLooks(polls, call, terms.judge, probe, ProbeContext(baselines, terms.dlqAtStart));
    OneMoreLook(polls, begun, now, call, terms.pollMs, Min(begun + timeoutSec * 1000, terms.deadline));
    assert (polls + [call])[..|polls|] == polls;
  }

  /** A hold whose looks all held so far looks once more. */
  lemma HoldLooks(
    polls: seq<Call>, begun: int, now: int, call: Call, t: int, probe: Probe, forSec: nat, terms: Terms,
    baselines: map<string, real>)
    requires Underway(polls, begun, now, terms.pollMs, Min(begun + forSec * 1000, terms.deadline))
    requires AllHeld(polls, terms.judge, probe, ProbeContext(baselines, terms.dlqAtStart))
    requires call.Asking? && now <= call.at <= t
    ensures var (step, x) := (Hold(probe, forSec), Stretch(begun, begun, t, polls + [call]));
            if !Held(call, terms.judge, probe, ProbeContext(baselines, terms.dlqAtStart))
            then Verdict(step, false, x, terms, baselines)
            else
              && AllHeld(x.calls, terms.judge, probe, ProbeContext(baselines, terms.dlqAtStart))
              && (t >= begun + forSec * 1000 ==> Verdict(step, true, x, terms, baselines))
              && (terms.deadline <= t < begun + forSec * 1000 ==> Verdict(step, false, x, terms, baselines))
  {
    hide Paced, AllHeld, Held, InVain, Underway;
    FollowsLooks(polls, call, terms.judge, probe, ProbeContext(baselines, terms.dlqAtStart));
    OneMoreLook(polls, begun, now, call, terms.pollMs, Min(begun + forSec * 1000, terms.deadline));
    assert (polls + [call])[..|polls|] == polls;
  }

  /** The looks of a baseline so far were at their pace, and it is time for the next. */
  ghost predicate Measuring(polls: seq<Call>, line: string, begun: int, now: int, terms: Terms) {
    && Within(polls, begun, now) && AllAnswered(polls) && PacedByCycles(polls, line, begun, terms)
    && (polls != [] ==> NextInTime(polls, now, line, begun, terms))
  }

  lemma NothingMeasured(line: string, begun: int, terms: Terms)
    ensures Measured([], line, begun) == ({}, []) && LastNew([], line, begun) == begun
    ensures Measuring([], line, begun, begun, terms)
  {
  }

  lemma OneMoreInTime(polls: seq<Call>, line: string, begun: int, now: int, call: Call, terms: Terms)
    requires Measuring(polls, line, begun, now, terms) && call.Asking? && now <= call.at
    ensures Within(polls + [call], begun, call.at) && PacedByCycles(polls + [call], line, begun, terms)
    ensures call.facts.Some? ==> AllAnswered(polls + [call])
  {
    hide Measured, LastNew;
    var more := polls + [call];
    forall i | 0 <= i < |polls| ensures InTimeAt(more, i, line, begun, terms) {
      assert more[..i + 1] == polls[..i + 1];
      assert i + 1 < |polls| ==> InTimeAt(polls, i, line, begun, terms);
      assert i + 1 == |polls| ==> polls[..i + 1] == polls;
    }
  }

  lemma LastNewOneMore(polls: seq<Call>, call: Call, line: string, begun: int)
    ensures LastNew(polls + [call], line, begun) ==
            if Measured(polls + [call], line, begun).1 != Measured(polls, line, begun).1 then call.at
            else LastNew(polls, line, begun)
  {
    hide Measured;
    assert (polls + [call])[..|polls|] == polls;
  }

  lemma BaselineEnds(
    polls: seq<Call>, begun: int, call: Call, t: int, line: string, samples: nat, storeAs: string, terms: Terms,
    baselines: map<string, real>)
    requires Within(polls + [call], begun, t) && AllAnswered(polls) && PacedByCycles(polls + [call], line, begun, terms)
    requires call.Asking? && |Measured(polls, line, begun).1| < samples
    ensures var x := Stretch(begun, begun, t, polls + [call]);
            var n := |Measured(x.calls, line, begun).1|;
            && (call.facts.Some? && n == samples ==>
                  Verdict(Baseline(line, samples, storeAs), true, x, terms, baselines))
            && (n < samples
                && (Lost(call) || t >= LastNew(x.calls, line, begun) + terms.idleMs || t >= terms.deadline) ==>
                  Verdict(Baseline(line, samples, storeAs), false, x, terms, baselines))
  {
    hide Measured, LastNew, PacedByCycles;
    assert (polls + [call])[..|polls|] == polls;
  }

  // ---------------------------------------------------------------- the steps of a run

  /** What a passed step leaves for the probes of the later ones. */
  function Stored(step: ScenarioStep, x: Stretch, baselines: map<string, real>): map<string, real> {
    match step
    case Baseline(line, _, storeAs) =>
      var durations := Measured(x.calls, line, x.begun).1;
      if durations == [] then baselines else baselines[storeAs := Average(durations)]
    case _ => baselines
  }

  function BaselinesBefore(steps: seq<ScenarioStep>, trace: seq<Stretch>, k: nat): map<string, real>
    requires k <= |trace| <= |steps|
  {
    if k == 0 then map[] else Stored(steps[k - 1], trace[k - 1], BaselinesBefore(steps, trace, k - 1))
  }

  /** The status a step has got by what its stretch shows: with the time of the run up it is not begun and fails. */
  ghost predicate StepTold(
    step: ScenarioStep, status: StepStatus, x: Stretch, terms: Terms, baselines: map<string, real>)
  {
    if x.entered >= terms.deadline then status.Failed? && x.calls == [] && Timed(x)
    else (status.Passed? || status.Failed?) && Verdict(step, status.Passed?, x, terms, baselines)
  }

  /** Each step of the trace has the status its stretch shows, and all but the last have passed, one after another. */
  ghost predicate Carried(steps: seq<ScenarioStep>, statuses: seq<StepStatus>, trace: seq<Stretch>, terms: Terms) {
    && |trace| <= |steps| == |statuses|
    && (forall k :: 0 <= k < |trace| ==>
          StepTold(steps[k], statuses[k], trace[k], terms, BaselinesBefore(steps, trace, k)))
    && (forall k :: 0 <= k < |trace| - 1 ==> statuses[k].Passed? && trace[k].ended <= trace[k + 1].entered)
  }

  /** The steps in turn, all of them or up to one that failed. */
  ghost predicate Told(steps: seq<ScenarioStep>, statuses: seq<StepStatus>, trace: seq<Stretch>, terms: Terms) {
    && Carried(steps, statuses, trace, terms)
    && (|trace| < |steps| ==> trace != [] && statuses[|trace| - 1].Failed?)
  }

  function Joined(trace: seq<Stretch>): seq<Call> {
    if trace == [] then [] else Joined(trace[..|trace| - 1]) + trace[|trace| - 1].calls
  }

  /** The statuses of a run follow from its calls. */
  lemma StatusesAreForced(
    steps: seq<ScenarioStep>, a: seq<StepStatus>, b: seq<StepStatus>, trace: seq<Stretch>, terms: Terms)
    requires Carried(steps, a, trace, terms) && Carried(steps, b, trace, terms)
    ensures forall k :: 0 <= k < |trace| ==> a[k] == b[k]
  {
    hide Passes, Fails;
    forall k | 0 <= k < |trace| ensures a[k] == b[k] {
      VerdictIsForced(steps[k], trace[k], terms, BaselinesBefore(steps, trace, k));
    }
  }

  lemma {:induction false} BaselinesStay(steps: seq<ScenarioStep>, trace: seq<Stretch>, x: Stretch, k: nat)
    requires k <= |trace| < |steps|
    ensures BaselinesBefore(steps, trace + [x], k) == BaselinesBefore(steps, trace, k)
  {
    if k > 0 {
      BaselinesStay(steps, trace, x, k - 1);
    }
  }

  ghost predicate PassedUpTo(statuses: seq<StepStatus>, k: nat) {
    k <= |statuses| && forall i :: 0 <= i < k ==> statuses[i].Passed?
  }

  ghost predicate PendingFrom(statuses: seq<StepStatus>, k: nat) {
    forall i :: k <= i < |statuses| ==> statuses[i].Pending?
  }

  lemma NothingCarried(steps: seq<ScenarioStep>, terms: Terms)
    ensures var statuses := seq(|steps|, _ => Pending);
            Carried(steps, statuses, [], terms) && PassedUpTo(statuses, 0) && PendingFrom(statuses, 0)
    ensures Joined([]) == [] && BaselinesBefore(steps, [], 0) == map[]
  {
  }

  lemma AllOrFailed(statuses: seq<StepStatus>, k: nat)
    ensures PassedUpTo(statuses, k) && k == |statuses| ==> AllPassed(statuses)
    ensures 0 < k <= |statuses| && statuses[k - 1].Failed? ==> !AllPassed(statuses)
  {
  }

  lemma BaselinesOneMore(steps: seq<ScenarioStep>, trace: seq<Stretch>, x: Stretch)
    requires |trace| < |steps|
    ensures forall k :: 0 <= k <= |trace| ==>
              BaselinesBefore(steps, trace + [x], k) == BaselinesBefore(steps, trace, k)
    ensures BaselinesBefore(steps, trace + [x], |trace| + 1) ==
            Stored(steps[|trace|], x, BaselinesBefore(steps, trace, |trace|))
  {
    hide Stored;
    forall k | 0 <= k <= |trace|
      ensures BaselinesBefore(steps, trace + [x], k) == BaselinesBefore(steps, trace, k)
    {
      BaselinesStay(steps, trace, x, k);
    }
  }

  lemma CarriedOneMore(
    steps: seq<ScenarioStep>, statuses: seq<StepStatus>, trace: seq<Stretch>, terms: Terms, x: Stretch,
    status: StepStatus)
    requires Carried(steps, statuses, trace, terms) && |trace| < |steps| == |statuses|
    requires PassedUpTo(statuses, |trace|)
    requires StepTold(steps[|trace|], status, x, terms, BaselinesBefore(steps, trace, |trace|))
    requires trace != [] ==> trace[|trace| - 1].ended <= x.entered
    ensures var (after, more) := (statuses[|trace| := status], trace + [x]);
            && Carried(steps, after, more, terms) && Joined(more) == Joined(trace) + x.calls
            && (PendingFrom(statuses, |trace|) ==> PendingFrom(after, |more|))
            && (status.Passed? ==>
                  && PassedUpTo(after, |more|)
                  && BaselinesBefore(steps, more, |more|) ==
                     Stored(steps[|trace|], x, BaselinesBefore(steps, trace, |trace|)))
  {
    hide StepTold, Stored, BaselinesBefore, Carried;
    StatusesOneMore(statuses, |trace|, status);
    BaselinesOneMore(steps, trace, x);
    StretchesOneMore(steps, statuses, trace, terms, x, status);
    var more := trace + [x];
    assert more[..|more| - 1] == trace;
  }

  lemma StatusesOneMore(statuses: seq<StepStatus>, k: nat, status: StepStatus)
    requires k < |statuses|
    ensures PendingFrom(statuses, k) ==> PendingFrom(statuses[k := status], k + 1)
    ensures PassedUpTo(statuses, k) && status.Passed? ==> PassedUpTo(statuses[k := status], k + 1)
  {
  }

  lemma StretchesOneMore(
    steps: seq<ScenarioStep>, statuses: seq<StepStatus>, trace: seq<Stretch>, terms: Terms, x: Stretch,
    status: StepStatus)
    requires Carried(steps, statuses, trace, terms) && |trace| < |steps| && PassedUpTo(statuses, |trace|)
    requires StepTold(steps[|trace|], status, x, terms, BaselinesBefore(steps, trace, |trace|))
    requires trace != [] ==> trace[|trace| - 1].ended <= x.entered
    ensures Carried(steps, statuses[|trace| := status], trace + [x], terms)
  {
    hide StepTold, Stored, BaselinesBefore;
    var after, more := statuses[|trace| := status], trace + [x];
    BaselinesOneMore(steps, trace, x);
    forall k | 0 <= k < |more|
      ensures StepTold(steps[k], after[k], more[k], terms, BaselinesBefore(steps, more, k))
    {
      if k < |trace| {
        assert StepTold(steps[k], statuses[k], trace[k], terms, BaselinesBefore(steps, trace, k));
      }
    }
  }
}
