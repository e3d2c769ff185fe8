/** The steps of a scenario, and the stand they run on, whose every call may fail, before or after it took effect. */
module ScenarioStand {
  import opened Wrappers
  import opened Sequences
  import opened FaultBook

  /** A fault the run has to take back. */
  datatype FaultTarget = FaultTarget(targetId: string, kind: FaultKind)

  datatype LineCycle = LineCycle(at: int, polled: bool, durationMs: int)

  /** The stand as one request shows it; `rest` is whatever else probes look at. */
  datatype Facts = Facts(lines: map<string, Option<LineCycle>>, dlqTotal: int, rest: string)

  datatype ProbeContext = ProbeContext(baselines: map<string, real>, dlqAtStart: int)

  /** What a probe asks is left to a parameter: its verdict on facts and context. */
  type Probe = string
  type Judge = (Probe, Facts, ProbeContext) -> bool

  datatype ScenarioStep =
    | Inject(request: FaultRequest)
    | ClearFaults(filter: ClearFilter)
    | SimScenario(name: string)
    | Baseline(line: string, samples: nat, storeAs: string)
    | WaitFor(probe: Probe, timeoutSec: nat)
    | Hold(probe: Probe, forSec: nat)

  function TargetOf(key: FaultKey): FaultTarget {
    FaultTarget(key.targetId, key.kind)
  }

  predicate Hits(target: FaultTarget, filter: ClearFilter) {
    && (filter.targetId.Some? ==> filter.targetId.value == target.targetId)
    && (filter.kind.Some? ==> filter.kind.value == target.kind)
  }

  function Exactly(target: FaultTarget): ClearFilter {
    ClearFilter(Some(target.targetId), Some(target.kind))
  }

  // ---------------------------------------------------------------- the stand behind the ports

  /** What was asked of the stand, how it ended for the caller, and when. */
  datatype Call =
    | Injecting(at: int, request: FaultRequest, ok: bool)
    | Simulating(at: int, name: string, told: Option<seq<FaultTarget>>)
    | Clearing(at: int, filter: ClearFilter, ok: bool)
    | Asking(at: int, facts: Option<Facts>)

  /**
   The other side. Any call may fail for the caller, and a failed call may still have had its effect. Time passes
   as it likes, but never backwards.
   */
  class Stand {
    var now: int
    ghost var calls: seq<Call>
    ghost var book: seq<ActiveFault>
    /** Faults of simulator scenarios whose reply was lost: nobody was told of them. */
    ghost var untold: set<FaultTarget>

    constructor (now: int)
      ensures calls == [] && book == [] && untold == {}
    {
      this.now := now;
      calls := [];
      book := [];
      untold := {};
    }

    method Now() returns (t: int)
      modifies this`now
      ensures t == now >= old(now)
    {
      var passed: int :| passed >= 0;
      now := now + passed;
      t := now;
    }

    method Sleep(ms: int)
      requires ms >= 1
      modifies this`now
      ensures now >= old(now) + ms
    {
      var late: int :| late >= 0;
      now := now + ms + late;
    }

    method Facts() returns (facts: Option<Facts>)
      modifies this`now, this`calls
      ensures now >= old(now) && calls == old(calls) + [Asking(now, facts)]
    {
      var _ := Now();
      facts := *;
      calls := calls + [Asking(now, facts)];
    }

    method Inject(request: FaultRequest) returns (ok: bool)
      modifies this
      ensures now >= old(now) && untold == old(untold)
      ensures calls == old(calls) + [Injecting(now, request, ok)]
      ensures forall f :: f in book ==> f in old(book) || f.key == request.key
    {
      var _ := Now();
      ok := *;
      ghost var done: bool := *;
      if ok || done {
        ghost var id: int :| id >= 0;
        var fault := NewFault(id, now, request, None);
        FilterMembers(book, IsLive(now));
        FilterMembers(Active(book, now), IsOther(fault.key));
        book := Added(book, now, fault);
      }
      calls := calls + [Injecting(now, request, ok)];
    }

    method Clear(filter: ClearFilter) returns (ok: bool)
      modifies this
      ensures now >= old(now) && untold == old(untold)
      ensures calls == old(calls) + [Clearing(now, filter, ok)]
      ensures forall f :: f in book ==> f in old(book)
      ensures ok ==> forall f :: f in book ==> !Hits(TargetOf(f.key), filter)
    {
      var _ := Now();
      ok := *;
      ghost var done: bool := *;
      if ok || done {
        FilterMembers(book, IsLive(now));
        FilterMembers(Active(book, now), Escapes(filter));
        book := Cleared(book, now, filter);
      }
      calls := calls + [Clearing(now, filter, ok)];
    }

    method RunSimScenario(name: string) returns (told: Option<seq<FaultTarget>>)
      modifies this
      ensures now >= old(now)
      ensures calls == old(calls) + [Simulating(now, name, told)]
      ensures old(untold) <= untold && (told.Some? ==> untold == old(untold))
      ensures forall f :: f in book ==>
                f in old(book) || (if told.Some? then TargetOf(f.key) in told.value else TargetOf(f.key) in untold)
    {
      var _ := Now();
      var created: seq<FaultRequest> := *;
      var ok: bool := *;
      ghost var targets := seq(|created|, i requires 0 <= i < |created| => TargetOf(created[i].key));
      var reply: seq<FaultTarget> := seq(|created|, i requires 0 <= i < |created| => TargetOf(created[i].key));
      for i := 0 to |created|
        invariant now >= old(now) && calls == old(calls) && untold == old(untold)
        invariant forall f :: f in book ==> f in old(book) || TargetOf(f.key) in targets
      {
        ghost var id: int :| id >= 0;
        var fault := NewFault(id, now, created[i], None);
        FilterMembers(book, IsLive(now));
        FilterMembers(Active(book, now), IsOther(fault.key));
        assert TargetOf(fault.key) == targets[i];
        book := Added(book, now, fault);
      }
      if ok {
        told := Some(reply);
      } else {
        told := None;
        untold := untold + set t | t in targets;
      }
      calls := calls + [Simulating(now, name, told)];
    }
  }
}
