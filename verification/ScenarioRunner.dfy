/**
The scenario runner: the steps in turn, under a deadline, and a clean-up that has to happen on every path.
*/
module ScenarioRunner {
  import opened Wrappers
  import opened Sequences
  import opened Arithmetic
  import opened FaultBook
  import opened ScenarioStand
  import opened StepVerdicts

  // ---------------------------------------------------------------- what has to be taken back

  predicate Mentions(call: Call, target: FaultTarget) {
    match call
    case Injecting(_, request, _) => TargetOf(request.key) == target
    case Simulating(_, _, told) => told.Some? && target in told.value
    case _ => false
  }

  /** A clear that hits the target was asked for after position i. */
  ghost predicate ClearAskedAfter(calls: seq<Call>, i: nat, target: FaultTarget) {
    exists j :: i < j < |calls| && calls[j].Clearing? && Hits(target, calls[j].filter)
  }

  /** A clear that hits the target succeeded after position i. */
  ghost predicate ClearedAfter(calls: seq<Call>, i: nat, target: FaultTarget) {
    exists j :: i < j < |calls| && calls[j].Clearing? && calls[j].ok && Hits(target, calls[j].filter)
  }

  /** Every fault injected or told of since `from` is on the list, or has been cleared since. */
  ghost predicate Accounted(calls: seq<Call>, from: nat, injected: seq<FaultTarget>) {
    forall i, t :: from <= i < |calls| && Mentions(calls[i], t) ==> t in injected || ClearedAfter(calls, i, t)
  }

  /** Every fault on the stand was there before, is on the list, or nobody was told of it. */
  ghost predicate Known(book: seq<ActiveFault>, before: seq<ActiveFault>, injected: seq<FaultTarget>,
      untold: set<FaultTarget>)
  {
    forall f :: f in book ==> f in before || TargetOf(f.key) in injected || TargetOf(f.key) in untold
  }

  lemma ClearedStays(calls: seq<Call>, call: Call, i: nat, t: FaultTarget)
    requires ClearedAfter(calls, i, t)
    ensures ClearedAfter(calls + [call], i, t)
  {
    var j :| i < j < |calls| && calls[j].Clearing? && calls[j].ok && Hits(t, calls[j].filter);
    assert (calls + [call])[j] == calls[j];
  }

  lemma AccountedStays(calls: seq<Call>, from: nat, injected: seq<FaultTarget>, call: Call, after: seq<FaultTarget>)
    requires Accounted(calls, from, injected)
    requires forall t :: t in injected ==> t in after || (call.Clearing? && call.ok && Hits(t, call.filter))
    requires forall t :: Mentions(call, t) ==> t in after
    ensures Accounted(calls + [call], from, after)
  {
    hide Hits;
    var more := calls + [call];
    forall i, t | from <= i < |more| && Mentions(more[i], t) ensures t in after || ClearedAfter(more, i, t) {
      if i < |calls| {
        assert Mentions(calls[i], t);
        if ClearedAfter(calls, i, t) {
          ClearedStays(calls, call, i, t);
        } else if t !in after {
          assert more[|calls|] == call;
        }
      }
    }
  }

  /** The k-th clear of a clean-up is for the k-th fault of the list. */
  ghost predicate ClearsAt(before: seq<Call>, after: seq<Call>, injected: seq<FaultTarget>, k: nat) {
    && k < |injected| && |before| + k < |after|
    && after[|before| + k].Clearing? && after[|before| + k].filter == Exactly(injected[k])
  }

  ghost predicate SucceedsAt(before: seq<Call>, after: seq<Call>, k: nat) {
    |before| + k < |after| && after[|before| + k].Clearing? && after[|before| + k].ok
  }

  lemma ExactlyHits(target: FaultTarget)
    ensures Hits(target, Exactly(target)) && forall t :: Hits(t, Exactly(target)) <==> t == target
  {
  }

  predicate NotHit(filter: ClearFilter, t: FaultTarget) {
    !Hits(t, filter)
  }

  function MissedBy(filter: ClearFilter): FaultTarget -> bool {
    (t: FaultTarget) => NotHit(filter, t)
  }

  function FaultKindText(kind: FaultKind): string {
    match kind
    case Silent => "silent"
    case Crc => "crc"
    case Stall => "stall"
    case ExceptionReply => "exception"
    case Offline => "offline"
    case PowerDip => "power_dip"
    case Offscale => "offscale"
    case DoorStuck => "door_stuck"
    case DefrostNow => "defrost"
  }

  /** The key of the list is the text `target/kind`: it tells targets apart, so the list may hold targets. */
  lemma FaultKeyIsInjective(a: FaultTarget, b: FaultTarget)
    requires a.targetId + ['/'] + FaultKindText(a.kind) == b.targetId + ['/'] + FaultKindText(b.kind)
    ensures a == b
  {
    KindTextIsPlain(a.kind);
    KindTextIsPlain(b.kind);
    SplitAtLast('/', a.targetId, b.targetId, FaultKindText(a.kind), FaultKindText(b.kind));
    KindTextIsInjective(a.kind, b.kind);
  }

  lemma KindTextIsPlain(kind: FaultKind)
    ensures '/' !in FaultKindText(kind)
  {
  }

  lemma KindTextIsInjective(a: FaultKind, b: FaultKind)
    requires FaultKindText(a) == FaultKindText(b)
    ensures a == b
  {
    var x, y := FaultKindText(a), FaultKindText(b);
    assert |x| == |y| && x[0] == y[0] && x[1] == y[1] && x[2] == y[2];
    assert |x| > 4 ==> x[4] == y[4];
  }

  // ---------------------------------------------------------------- the runner

  class Runner {
    const stand: Stand
    const judge: Judge
    const pollMs: int
    const idleMs: int
    const deadline: int
    var dlqAtStart: int
    var baselines: map<string, real>
    /** Faults to take back, each once, in the order they were registered. */
    var injected: seq<FaultTarget>
    var progressFailures: nat

    constructor (stand: Stand, judge: Judge, pollMs: int, idleMs: int, deadline: int)
      requires pollMs >= 1
      ensures this.stand == stand && this.judge == judge && this.pollMs == pollMs && this.idleMs == idleMs
      ensures this.deadline == deadline
      ensures injected == [] && baselines == map[] && progressFailures == 0
    {
      this.stand, this.judge, this.pollMs, this.idleMs, this.deadline := stand, judge, pollMs, idleMs, deadline;
      dlqAtStart, baselines, injected, progressFailures := 0, map[], [], 0;
    }

    function Context(): ProbeContext
      reads this
    {
      ProbeContext(baselines, dlqAtStart)
    }

    ghost function Conditions(): Terms
      reads this
    {
      Terms(judge, pollMs, idleMs, deadline, dlqAtStart)
    }

    /** The books are straight: nothing this run caused is forgotten. */
    ghost predicate Straight(from: nat, before: seq<ActiveFault>)
      reads this, stand
    {
      Accounted(stand.calls, from, injected) && Known(stand.book, before, injected, stand.untold)
    }

    method Register(target: FaultTarget)
      modifies this`injected
      ensures target in injected && forall t :: t in injected <==> t in old(injected) || t == target
    {
      if target !in injected {
        injected := injected + [target];
      }
    }

    method RunInject(request: FaultRequest, ghost from: nat, ghost before: seq<ActiveFault>) returns (ok: bool)
      requires Straight(from, before)
      modifies this`injected, stand
      ensures Straight(from, before) && stand.now >= old(stand.now)
      ensures stand.calls == old(stand.calls) + [Injecting(stand.now, request, ok)]
    {
      hide Hits;
      ghost var was, calls := injected, stand.calls;
      Register(TargetOf(request.key));
      ok := stand.Inject(request);
      AccountedStays(calls, from, was, Injecting(stand.now, request, ok), injected);
    }

    method RunClear(filter: ClearFilter, ghost from: nat, ghost before: seq<ActiveFault>) returns (ok: bool)
      requires Straight(from, before)
      modifies this`injected, stand
      ensures Straight(from, before) && stand.now >= old(stand.now)
      ensures stand.calls == old(stand.calls) + [Clearing(stand.now, filter, ok)]
      ensures injected == if ok then Filter(old(injected), MissedBy(filter)) else old(injected)
    {
      hide Hits;
      ghost var was, calls := injected, stand.calls;
      ok := stand.Clear(filter);
      if ok {
        injected := Filter(injected, MissedBy(filter));
        FilterMembers(was, MissedBy(filter));
      }
      AccountedStays(calls, from, was, Clearing(stand.now, filter, ok), injected);
    }

    method RunSimScenario(name: string, ghost from: nat, ghost before: seq<ActiveFault>) returns (ok: bool)
      requires Straight(from, before)
      modifies this`injected, stand
      ensures Straight(from, before) && stand.now >= old(stand.now)
      ensures |stand.calls| == |old(stand.calls)| + 1 && old(stand.calls) <= stand.calls
      ensures var call := stand.calls[|old(stand.calls)|];
              && call.Simulating? && call.at == stand.now && call.name == name && ok == call.told.Some?
              && (ok ==> forall t :: t in injected <==> t in old(injected) || t in call.told.value)
              && (!ok ==> injected == old(injected))
    {
      hide Hits;
      ghost var was, calls := injected, stand.calls;
      var told := stand.RunSimScenario(name);
      ok := told.Some?;
      if ok {
        for i := 0 to |told.value|
          modifies this`injected
          invariant forall t :: t in injected <==> t in was || t in told.value[..i]
        {
          Register(told.value[i]);
        }
      }
      AccountedStays(calls, from, was, Simulating(stand.now, name, told), injected);
    }

    /** One look at the stand. */
    method Poll(ghost from: nat, ghost before: seq<ActiveFault>) returns (facts: Option<Facts>)
      requires Straight(from, before)
      modifies stand`now, stand`calls
      ensures Straight(from, before) && stand.now >= old(stand.now)
      ensures stand.calls == old(stand.calls) + [Asking(stand.now, facts)]
    {
      ghost var calls := stand.calls;
      facts := stand.Facts();
      AccountedStays(calls, from, injected, Asking(stand.now, facts), injected);
    }

    method RunWaitFor(probe: Probe, timeoutSec: nat, ghost from: nat, ghost before: seq<ActiveFault>)
      returns (ok: bool, ghost x: Stretch)
      requires Straight(from, before) && pollMs >= 1
      modifies stand`now, stand`calls
      ensures Straight(from, before) && old(stand.now) <= x.entered && x.ended == stand.now
      ensures stand.calls == old(stand.calls) + x.calls
      ensures Verdict(WaitFor(probe, timeoutSec), ok, x, Conditions(), baselines)
    {
      hide Accounted, Known, Verdict, AllInVain, Underway, Within, Paced;
      var started := stand.Now();
      var ownEnd := started + timeoutSec * 1000;
      var end := Min(ownEnd, deadline);
      ghost var polls: seq<Call> := [];
      ghost var context, terms := Context(), Conditions();
      NoLooks(started, stand.now, pollMs, end, judge, probe, context);
      while true
        invariant Straight(from, before) && stand.now >= started
        invariant stand.calls == old(stand.calls) + polls
        invariant Underway(polls, started, stand.now, pollMs, end) && AllInVain(polls, judge, probe, context)
        decreases if end > stand.now then end - stand.now else 0
      {
        ghost var looks, since := polls, stand.now;
        var facts := Poll(from, before);
        ghost var call := Asking(stand.now, facts);
        polls := looks + [call];
        WaitLooks(looks, started, since, call, probe, timeoutSec, terms, baselines);
        OneMoreLook(looks, started, since, call, pollMs, end);
        if facts.None? {
          return false, Stretch(started, started, stand.now, polls);
        }
        if judge(probe, facts.value, Context()) {
          return true, Stretch(started, started, stand.now, polls);
        }
        var now := stand.Now();
        if now >= end {
          return false, Stretch(started, started, stand.now, polls);
        }
        stand.Sleep(Min(pollMs, end - now));
        Later(polls, started, call.at, now);
        Woke(polls, started, now, stand.now, pollMs, end);
      }
    }

    method RunHold(probe: Probe, forSec: nat, ghost from: nat, ghost before: seq<ActiveFault>)
      returns (ok: bool, ghost x: Stretch)
      requires Straight(from, before) && pollMs >= 1
      modifies stand`now, stand`calls
      ensures Straight(from, before) && old(stand.now) <= x.entered && x.ended == stand.now
      ensures stand.calls == old(stand.calls) + x.calls
      ensures Verdict(Hold(probe, forSec), ok, x, Conditions(), baselines)
    {
      hide Accounted, Known, Verdict, AllHeld, Underway, Within, Paced;
      var startedMs := stand.Now();
      var end := startedMs + forSec * 1000;
      ghost var polls: seq<Call> := [];
      ghost var context, terms, stop := Context(), Conditions(), Min(end, deadline);
      NoLooks(startedMs, stand.now, pollMs, stop, judge, probe, context);
      while true
        invariant Straight(from, before) && stand.now >= startedMs
        invariant stand.calls == old(stand.calls) + polls
        invariant Underway(polls, startedMs, stand.now, pollMs, stop) && AllHeld(polls, judge, probe, context)
        decreases if deadline > stand.now then deadline - stand.now else 0
      {
        ghost var looks, since := polls, stand.now;
        var facts := Poll(from, before);
        ghost var call := Asking(stand.now, facts);
        polls := looks + [call];
        HoldLooks(looks, startedMs, since, call, stand.now, probe, forSec, terms, baselines);
        OneMoreLook(looks, startedMs, since, call, pollMs, stop);
        if facts.None? {
          return false, Stretch(startedMs, startedMs, stand.now, polls);
        }
        var held := judge(probe, facts.value, Context());
        var now := stand.Now();
        HoldLooks(looks, startedMs, since, call, now, probe, forSec, terms, baselines);
        if !held {
          return false, Stretch(startedMs, startedMs, stand.now, polls);
        }
        if now >= end {
          return true, Stretch(startedMs, startedMs, stand.now, polls);
        }
        if now >= deadline {
          return false, Stretch(startedMs, startedMs, stand.now, polls);
        }
        stand.Sleep(Min(pollMs, Min(end - now, deadline - now)));
        Later(polls, startedMs, call.at, now);
        Woke(polls, startedMs, now, stand.now, pollMs, stop);
      }
    }

    method RunBaseline(line: string, samples: nat, storeAs: string, ghost from: nat, ghost before: seq<ActiveFault>)
      returns (ok: bool, ghost x: Stretch)
      requires Straight(from, before) && pollMs >= 1 && samples >= 1
      modifies this`baselines, stand`now, stand`calls
      ensures Straight(from, before) && old(stand.now) <= x.entered && x.ended == stand.now
      ensures stand.calls == old(stand.calls) + x.calls
      ensures Verdict(Baseline(line, samples, storeAs), ok, x, Conditions(), old(baselines))
      ensures baselines == if ok then Stored(Baseline(line, samples, storeAs), x, old(baselines)) else old(baselines)
    {
      hide Accounted, Known, Average, Measured, Verdict, Within, LastNew, PacedByCycles, AllAnswered;
      var stepStartedMs := stand.Now();
      var seen: set<int> := {};
      var durations: seq<int> := [];
      var lastNewAt := stepStartedMs;
      ghost var polls: seq<Call> := [];
      ghost var terms := Conditions();
      NothingMeasured(line, stepStartedMs, terms);
      while true
        invariant Straight(from, before) && stand.now >= stepStartedMs && baselines == old(baselines)
        invariant stand.calls == old(stand.calls) + polls
        invariant (seen, durations) == Measured(polls, line, stepStartedMs) && |durations| < samples
        invariant Measuring(polls, line, stepStartedMs, stand.now, terms)
        invariant LastNew(polls, line, stepStartedMs) <= lastNewAt <= stand.now
        decreases if deadline > stand.now then deadline - stand.now else 0
      {
        ghost var looks, since := polls, stand.now;
        var facts := Poll(from, before);
        ghost var call := Asking(stand.now, facts);
        polls := looks + [call];
        MeasuredOneMore(looks, stand.now, facts, line, stepStartedMs);
        OneMoreInTime(looks, line, stepStartedMs, since, call, terms);
        LastNewOneMore(looks, call, line, stepStartedMs);
        assert durations + [] == durations;
        if facts.None? {
          BaselineEnds(looks, stepStartedMs, call, stand.now, line, samples, storeAs, terms, baselines);
          return false, Stretch(stepStartedMs, stepStartedMs, stand.now, polls);
        }
        if line in facts.value.lines && facts.value.lines[line].Some? {
          var cycle := facts.value.lines[line].value;
          if cycle.at !in seen {
            seen := seen + {cycle.at};
            if cycle.polled && cycle.at >= stepStartedMs {
              durations := durations + [cycle.durationMs];
              lastNewAt := stand.Now();
            }
          }
        }
        Later(polls, stepStartedMs, call.at, stand.now);
        BaselineEnds(looks, stepStartedMs, call, stand.now, line, samples, storeAs, terms, baselines);
        if |durations| >= samples {
          baselines := baselines[storeAs := Average(durations)];
          return true, Stretch(stepStartedMs, stepStartedMs, stand.now, polls);
        }
        var now := stand.Now();
        Later(polls, stepStartedMs, call.at, now);
        BaselineEnds(looks, stepStartedMs, call, now, line, samples, storeAs, terms, baselines);
        if now - lastNewAt >= idleMs || now >= deadline {
          return false, Stretch(stepStartedMs, stepStartedMs, stand.now, polls);
        }
        stand.Sleep(Min(pollMs, Min(lastNewAt + idleMs - now, deadline - now)));
        Later(polls, stepStartedMs, now, stand.now);
      }
    }

    /** One step. A port that throws has already been turned into a failure here. */
    method ExecuteStep(step: ScenarioStep, ghost from: nat, ghost before: seq<ActiveFault>)
      returns (ok: bool, ghost x: Stretch)
      requires Straight(from, before) && pollMs >= 1 && (step.Baseline? ==> step.samples >= 1)
      modifies this`injected, this`baselines, stand
      ensures Straight(from, before) && old(stand.now) <= x.entered && x.ended == stand.now
      ensures stand.calls == old(stand.calls) + x.calls
      ensures Verdict(step, ok, x, Conditions(), old(baselines))
      ensures ok ==> baselines == Stored(step, x, old(baselines))
      ensures stand.now >= old(stand.now)
    {
      hide Accounted, Known;
      ghost var calls, entered := stand.calls, stand.now;
      match step
      case Inject(request) =>
        ok := RunInject(request, from, before);
        x := Stretch(entered, entered, stand.now, stand.calls[|calls|..]);
      case ClearFaults(filter) =>
        ok := RunClear(filter, from, before);
        x := Stretch(entered, entered, stand.now, stand.calls[|calls|..]);
      case SimScenario(name) =>
        ok := RunSimScenario(name, from, before);
        x := Stretch(entered, entered, stand.now, stand.calls[|calls|..]);
      case Baseline(line, samples, storeAs) => ok, x := RunBaseline(line, samples, storeAs, from, before);
      case WaitFor(probe, timeoutSec) => ok, x := RunWaitFor(probe, timeoutSec, from, before);
      case Hold(probe, forSec) => ok, x := RunHold(probe, forSec, from, before);
    }

    /** A step whose turn has come is carried out, unless the time of the run is up. */
    method TakeTurn(step: ScenarioStep, ghost from: nat, ghost before: seq<ActiveFault>)
      returns (ok: bool, ghost x: Stretch)
      requires Straight(from, before) && pollMs >= 1 && (step.Baseline? ==> step.samples >= 1)
      modifies this`injected, this`baselines, stand
      ensures Straight(from, before) && old(stand.now) <= x.entered && x.ended == stand.now >= old(stand.now)
      ensures stand.calls == old(stand.calls) + x.calls
      ensures StepTold(step, if ok then Passed else Failed, x, Conditions(), old(baselines))
      ensures ok ==> baselines == Stored(step, x, old(baselines))
    {
      hide Accounted, Known, Verdict, Stored;
      ghost var was := baselines;
      var now := stand.Now();
      ok := false;
      x := Stretch(now, now, now, []);
      if now < deadline {
        ok, x := ExecuteStep(step, from, before);
        EnteredEarlier(step, ok, x, now, Conditions(), was);
        x := x.(entered := now);
      }
    }

    /** The steps in turn, until one fails or the time of the run is up. */
    method ExecuteSteps(steps: seq<ScenarioStep>, ghost from: nat, ghost before: seq<ActiveFault>)
      returns (statuses: seq<StepStatus>, failures: seq<Failure>, ghost trace: seq<Stretch>)
      requires Straight(from, before) && pollMs >= 1 && baselines == map[]
      requires forall i :: 0 <= i < |steps| && steps[i].Baseline? ==> steps[i].samples >= 1
      modifies this`injected, this`baselines, this`progressFailures, stand
      ensures Straight(from, before)
      ensures stand.calls == old(stand.calls) + Joined(trace)
      ensures Told(steps, statuses, trace, Conditions()) && |statuses| == |steps|
      ensures trace != [] ==> old(stand.now) <= trace[0].entered && trace[|trace| - 1].ended <= stand.now
      ensures PendingFrom(statuses, |trace|)
      ensures failures == if AllPassed(statuses) then [] else [StepFailed(|trace| - 1)]
    {
      hide Accounted, Known, Stored, StepTold, Carried, PendingFrom, PassedUpTo, AllPassed;
      statuses := seq(|steps|, _ => Pending);
      failures := [];
      trace := [];
      var k := 0;
      NothingCarried(steps, Conditions());
      while k < |steps| && failures == []
        invariant 0 <= k == |trace| <= |steps| == |statuses|
        invariant Straight(from, before) && stand.calls == old(stand.calls) + Joined(trace)
        invariant Carried(steps, statuses, trace, Conditions()) && stand.now >= old(stand.now)
        invariant trace != [] ==> old(stand.now) <= trace[0].entered && trace[k - 1].ended <= stand.now
        invariant failures == [] ==> baselines == BaselinesBefore(steps, trace, k) && PassedUpTo(statuses, k)
        invariant failures != [] ==> k > 0 && statuses[k - 1].Failed? && failures == [StepFailed(k - 1)]
        invariant PendingFrom(statuses, k)
        decreases |steps| - k
      {
        ghost var settled := statuses;
        statuses := statuses[k := Running];
        Emit();
        var ok;
        ghost var x;
        ok, x := TakeTurn(steps[k], from, before);
        statuses := statuses[k := if ok then Passed else Failed];
        Emit();
        if !ok {
          failures := [StepFailed(k)];
        }
        assert statuses == settled[k := statuses[k]];
        CarriedOneMore(steps, settled, trace, Conditions(), x, statuses[k]);
        trace := trace + [x];
        k := k + 1;
      }
      AllOrFailed(statuses, k);
    }

    method SkipRest(statuses: seq<StepStatus>) returns (rest: seq<StepStatus>)
      modifies this`progressFailures
      ensures |rest| == |statuses|
      ensures forall i :: 0 <= i < |statuses| ==> rest[i] == if statuses[i].Pending? then Skipped else statuses[i]
    {
      rest := statuses;
      for i := 0 to |statuses|
        invariant |rest| == |statuses| && forall n :: i <= n < |rest| ==> rest[n] == statuses[n]
        invariant forall n :: 0 <= n < i ==> rest[n] == if statuses[n].Pending? then Skipped else statuses[n]
      {
        if rest[i].Pending? {
          rest := rest[i := Skipped];
          Emit();
        }
      }
    }

    /** Clears every registered fault, each on its own, whatever becomes of the others. */
    method CleanUp(ghost from: nat, ghost before: seq<ActiveFault>) returns (issues: seq<FaultTarget>)
      requires Straight(from, before) && from <= |stand.calls|
      modifies stand
      ensures stand.untold == old(stand.untold) && old(stand.calls) <= stand.calls && stand.now >= old(stand.now)
      ensures |stand.calls| == |old(stand.calls)| + |injected|
      ensures forall k :: 0 <= k < |injected| ==> ClearsAt(old(stand.calls), stand.calls, injected, k)
      ensures issues == [] <==> forall k :: 0 <= k < |injected| ==> SucceedsAt(old(stand.calls), stand.calls, k)
      ensures issues == [] ==> Known(stand.book, before, [], stand.untold)
      ensures issues == Uncleared(injected, stand.calls[|old(stand.calls)|..])
    {
      hide Hits, Accounted, Uncleared, Asks;
      issues := [];
      ghost var clears: seq<Call> := [];
      NothingAsked();
      for k := 0 to |injected|
        invariant stand.untold == old(stand.untold) && stand.now >= old(stand.now)
        invariant stand.calls == old(stand.calls) + clears && |clears| == k
        invariant Asks(clears, injected[..k]) && issues == Uncleared(injected[..k], clears)
        invariant Known(stand.book, before, injected, stand.untold)
        invariant issues == [] ==> Known(stand.book, before, injected[k..], stand.untold)
      {
        var ok := stand.Clear(Exactly(injected[k]));
        if !ok {
          issues := issues + [injected[k]];
        }
        assert injected[..k + 1] == injected[..k] + [injected[k]];
        OneMoreAsked(injected[..k], clears, injected[k], Clearing(stand.now, Exactly(injected[k]), ok));
        clears := clears + [Clearing(stand.now, Exactly(injected[k]), ok)];
        ExactlyHits(injected[k]);
        assert injected[k..] == [injected[k]] + injected[k + 1..];
      }
      assert injected[..|injected|] == injected;
      ClearsTell(old(stand.calls), injected, clears);
    }

    method Emit()
      modifies this`progressFailures
    {
      var delivered: bool := *;
      if !delivered {
        progressFailures := progressFailures + 1;
      }
    }
  }

  /** The faults whose clear failed. */
  function Uncleared(targets: seq<FaultTarget>, clears: seq<Call>): seq<FaultTarget> {
    if targets == [] || |clears| < |targets| then []
    else
      var n := |targets| - 1;
      Uncleared(targets[..n], clears[..n]) + if clears[n].Clearing? && clears[n].ok then [] else [targets[n]]
  }

  /** One clear for each target, in order. */
  ghost predicate Asks(clears: seq<Call>, targets: seq<FaultTarget>) {
    && |clears| == |targets|
    && forall n :: 0 <= n < |clears| ==> clears[n].Clearing? && clears[n].filter == Exactly(targets[n])
  }

  lemma NothingAsked()
    ensures Asks([], []) && Uncleared([], []) == []
  {
  }

  lemma OneMoreAsked(targets: seq<FaultTarget>, clears: seq<Call>, target: FaultTarget, clear: Call)
    requires Asks(clears, targets) && clear.Clearing? && clear.filter == Exactly(target)
    ensures Asks(clears + [clear], targets + [target])
    ensures Uncleared(targets + [target], clears + [clear]) ==
            Uncleared(targets, clears) + if clear.ok then [] else [target]
  {
    assert (targets + [target])[..|targets|] == targets && (clears + [clear])[..|clears|] == clears;
  }

  lemma {:induction false} UnclearedIffFailed(targets: seq<FaultTarget>, clears: seq<Call>)
    requires Asks(clears, targets)
    ensures Uncleared(targets, clears) == [] <==> forall n :: 0 <= n < |clears| ==> clears[n].ok
  {
    if targets != [] {
      UnclearedIffFailed(targets[..|targets| - 1], clears[..|clears| - 1]);
    }
  }

  lemma ClearsTell(before: seq<Call>, injected: seq<FaultTarget>, clears: seq<Call>)
    requires Asks(clears, injected)
    ensures var after := before + clears;
            && after[|before|..] == clears
            && (forall k :: 0 <= k < |injected| ==> ClearsAt(before, after, injected, k))
            && (Uncleared(injected, clears) == [] <==>
                  forall k :: 0 <= k < |injected| ==> SucceedsAt(before, after, k))
  {
    UnclearedIffFailed(injected, clears);
    var after := before + clears;
    forall k | 0 <= k < |injected| ensures after[|before| + k] == clears[k] {
    }
    forall k | 0 <= k < |injected| ensures SucceedsAt(before, after, k) <==> clears[k].ok {
    }
  }

  // ---------------------------------------------------------------- the whole run

  /** passed*, then at most one failed, then skipped*; nothing but skipped when the first facts were not read. */
  ghost predicate Shape(statuses: seq<StepStatus>, factsRead: bool) {
    if !factsRead then forall i :: 0 <= i < |statuses| ==> statuses[i].Skipped?
    else AllPassed(statuses) || exists k :: 0 <= k < |statuses| && FailedAt(statuses, k)
  }

  ghost predicate FailedAt(statuses: seq<StepStatus>, k: nat)
    requires k < |statuses|
  {
    && statuses[k].Failed?
    && (forall i :: 0 <= i < k ==> statuses[i].Passed?)
    && (forall i :: k < i < |statuses| ==> statuses[i].Skipped?)
  }

  ghost predicate AllAsked(calls: seq<Call>, from: nat) {
    forall i, t :: from <= i < |calls| && Mentions(calls[i], t) ==> ClearAskedAfter(calls, i, t)
  }

  ghost predicate AllCleared(calls: seq<Call>, from: nat) {
    forall i, t :: from <= i < |calls| && Mentions(calls[i], t) ==> ClearedAfter(calls, i, t)
  }

  /** Once the clean-up is through, every fault has its clear; and if all of them succeeded, it is gone. */
  lemma CleanUpSettles(calls: seq<Call>, after: seq<Call>, from: nat, injected: seq<FaultTarget>)
    requires Accounted(calls, from, injected) && from <= |calls|
    requires calls <= after && |after| == |calls| + |injected|
    requires forall k :: 0 <= k < |injected| ==> ClearsAt(calls, after, injected, k)
    ensures AllAsked(after, from)
    ensures (forall k :: 0 <= k < |injected| ==> SucceedsAt(calls, after, k)) ==> AllCleared(after, from)
  {
    hide Hits;
    forall i | |calls| <= i < |after| ensures after[i].Clearing? {
      assert ClearsAt(calls, after, injected, i - |calls|);
    }
    forall i, t | from <= i < |after| && Mentions(after[i], t)
      ensures ClearAskedAfter(after, i, t)
      ensures (forall k :: 0 <= k < |injected| ==> SucceedsAt(calls, after, k)) ==> ClearedAfter(after, i, t)
    {
      if i < |calls| {
        assert calls[i] == after[i];
        if ClearedAfter(calls, i, t) {
          var j :| i < j < |calls| && calls[j].Clearing? && calls[j].ok && Hits(t, calls[j].filter);
          assert after[j] == calls[j];
        } else {
          var k :| 0 <= k < |injected| && injected[k] == t;
          assert ClearsAt(calls, after, injected, k);
          ExactlyHits(t);
          assert after[|calls| + k].Clearing? && Hits(t, after[|calls| + k].filter);
          assert SucceedsAt(calls, after, k) ==> ClearedAfter(after, i, t);
        }
      }
    }
  }

  /**
   Runs a scenario. On every path the statuses have their shape, every fault the run injected or was told of is
   cleared again at least once after its last injection, and the run passes exactly when the first facts were
   read, every step passed and the clean-up succeeded. The calls after the first facts are those of the steps, one
   stretch for each step that had its turn, and then those of the clean-up; the stretches tell which steps passed.
   */
  method RunScenario(stand: Stand, judge: Judge, pollMs: int, idleMs: int, steps: seq<ScenarioStep>, timeoutSec: nat)
    returns (result: ScenarioResult, cleanUpIssues: seq<FaultTarget>, ghost startedMs: int, ghost trace: seq<Stretch>)
    requires pollMs >= 1
    requires forall i :: 0 <= i < |steps| && steps[i].Baseline? ==> steps[i].samples >= 1
    modifies stand
    ensures old(stand.calls) < stand.calls && stand.calls[|old(stand.calls)|].Asking?
    ensures |result.statuses| == |steps|
    ensures var first := stand.calls[|old(stand.calls)|];
            && Shape(result.statuses, first.facts.Some?)
            && (result.passed <==> first.facts.Some? && AllPassed(result.statuses) && cleanUpIssues == [])
            && old(stand.now) <= startedMs <= first.at
            && StepsThenClears(stand.calls, old(stand.calls) + [first], trace)
            && (first.facts.None? ==> trace == [])
            && (first.facts.Some? ==>
                  && Told(steps, result.statuses, trace,
                          Terms(judge, pollMs, idleMs, startedMs + timeoutSec * 1000, first.facts.value.dlqTotal))
                  && (trace != [] ==> first.at <= trace[0].entered && trace[|trace| - 1].ended <= stand.now))
    ensures result.passed <==> result.failures == []
    ensures result.failures ==
            (if stand.calls[|old(stand.calls)|].facts.None? then [NoFacts]
             else if AllPassed(result.statuses) then [] else [StepFailed(|trace| - 1)])
            + if cleanUpIssues == [] then [] else [CleanUpFailed(cleanUpIssues)]
    ensures AllAsked(stand.calls, |old(stand.calls)|)
    ensures cleanUpIssues == [] ==> AllCleared(stand.calls, |old(stand.calls)|)
    ensures cleanUpIssues == [] ==> Known(stand.book, old(stand.book), [], stand.untold)
  {
    hide Hits, Accounted, Known, FailedAt, Carried, AllPassed, Uncleared;
    ghost var from := |stand.calls|;
    ghost var before := stand.book;
    var started := stand.Now();
    startedMs := started;
    var run: Runner := new Runner(stand, judge, pollMs, idleMs, started + timeoutSec * 1000);
    NothingYet(stand.calls, stand.book, stand.untold);
    var statuses := seq(|steps|, _ => Pending);
    var failures: seq<Failure> := [];
    trace := [];
    var initial := run.Poll(from, before);
    ghost var first := stand.calls[from];
    if initial.None? {
      failures := [NoFacts];
    } else {
      run.dlqAtStart := initial.value.dlqTotal;
      statuses, failures, trace := run.ExecuteSteps(steps, from, before);
    }
    ghost var stepped := statuses;
    statuses := run.SkipRest(statuses);
    SkippedShape(steps, stepped, statuses, trace, run.Conditions(), initial.Some?);
    hide Shape, Told;
    ghost var calls := stand.calls;
    assert calls == old(stand.calls) + [first] + Joined(trace);
    cleanUpIssues := run.CleanUp(from, before);
    CleanUpSettles(calls, stand.calls, from, run.injected);
    OnlyClears(calls, stand.calls, run.injected);
    if cleanUpIssues != [] {
      failures := failures + [CleanUpFailed(cleanUpIssues)];
    }
    result := ScenarioResult(statuses, failures, failures == []);
  }

  /** After a beginning, the calls of the trace and then nothing but requests to clear. */
  ghost predicate StepsThenClears(calls: seq<Call>, before: seq<Call>, trace: seq<Stretch>) {
    && before + Joined(trace) <= calls
    && forall i :: |before + Joined(trace)| <= i < |calls| ==> calls[i].Clearing?
  }

  lemma OnlyClears(before: seq<Call>, after: seq<Call>, injected: seq<FaultTarget>)
    requires before <= after && |after| == |before| + |injected|
    requires forall k :: 0 <= k < |injected| ==> ClearsAt(before, after, injected, k)
    ensures forall i :: |before| <= i < |after| ==> after[i].Clearing?
  {
    forall i | |before| <= i < |after| ensures after[i].Clearing? {
      assert ClearsAt(before, after, injected, i - |before|);
    }
  }

  /** What is left of the steps once the rest is marked as skipped. */
  lemma SkippedShape(
    steps: seq<ScenarioStep>, stepped: seq<StepStatus>, rest: seq<StepStatus>, trace: seq<Stretch>, terms: Terms,
    factsRead: bool)
    requires |rest| == |stepped| == |steps|
    requires forall i :: 0 <= i < |rest| ==> rest[i] == if stepped[i].Pending? then Skipped else stepped[i]
    requires if factsRead
             then Told(steps, stepped, trace, terms) && PendingFrom(stepped, |trace|)
             else forall i :: 0 <= i < |stepped| ==> stepped[i].Pending?
    ensures Shape(rest, factsRead)
    ensures factsRead ==> Told(steps, rest, trace, terms) && (AllPassed(stepped) <==> AllPassed(rest))
  {
    hide Verdict, BaselinesBefore;
    if factsRead {
      forall k | 0 <= k < |trace| ensures rest[k] == stepped[k] {
        assert StepTold(steps[k], stepped[k], trace[k], terms, BaselinesBefore(steps, trace, k));
      }
      if trace != [] && stepped[|trace| - 1].Failed? {
        assert FailedAt(rest, |trace| - 1);
      }
    }
  }

  lemma NothingYet(calls: seq<Call>, book: seq<ActiveFault>, untold: set<FaultTarget>)
    ensures Accounted(calls, |calls|, []) && Known(book, book, [], untold)
  {
  }
}
