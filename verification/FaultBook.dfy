/** The simulator's book of faults: one fault per target and kind, forgotten lazily when its time is up. */
module FaultBook {
  import opened Wrappers
  import opened Sequences

  datatype FaultKind = Silent | Crc | Stall | ExceptionReply | Offline | PowerDip | Offscale | DoorStuck | DefrostNow

  datatype TargetKind = Line | Device

  datatype FaultKey = FaultKey(targetKind: TargetKind, targetId: string, kind: FaultKind)

  datatype ActiveFault = ActiveFault(
    id: nat,
    key: FaultKey,
    sinceMs: int,
    expiresAtMs: int,
    exceptionCode: Option<int>,
    paramKey: Option<string>)

  datatype FaultRequest = FaultRequest(key: FaultKey, ttlSec: int, exceptionCode: int)

  /** A missing part matches anything. */
  datatype ClearFilter = ClearFilter(targetId: Option<string>, kind: Option<FaultKind>)

  predicate Matches(key: FaultKey, filter: ClearFilter) {
    && (filter.targetId.Some? ==> filter.targetId.value == key.targetId)
    && (filter.kind.Some? ==> filter.kind.value == key.kind)
  }

  function NewFault(id: nat, now: int, request: FaultRequest, paramKey: Option<string>): ActiveFault {
    ActiveFault(id, request.key, now, now + request.ttlSec * 1000,
                if request.key.kind.ExceptionReply? then Some(request.exceptionCode) else None, paramKey)
  }

  function IsLive(now: int): ActiveFault -> bool {
    (f: ActiveFault) => f.expiresAtMs > now
  }

  function IsOther(key: FaultKey): ActiveFault -> bool {
    (f: ActiveFault) => f.key != key
  }

  function Escapes(filter: ClearFilter): ActiveFault -> bool {
    (f: ActiveFault) => !Matches(f.key, filter)
  }

  function Active(faults: seq<ActiveFault>, now: int): seq<ActiveFault> {
    Filter(faults, IsLive(now))
  }

  function Added(faults: seq<ActiveFault>, now: int, fault: ActiveFault): seq<ActiveFault> {
    Filter(Active(faults, now), IsOther(fault.key)) + [fault]
  }

  function Cleared(faults: seq<ActiveFault>, now: int, filter: ClearFilter): seq<ActiveFault> {
    Filter(Active(faults, now), Escapes(filter))
  }

  class Book {
    var faults: seq<ActiveFault>
    var counter: nat

    constructor ()
      ensures faults == [] && counter == 0
    {
      faults, counter := [], 0;
    }

    /** Drops what has expired, if anything has. */
    method Expire(now: int)
      modifies this`faults
      ensures faults == Active(old(faults), now)
    {
      if exists f | f in faults :: f.expiresAtMs <= now {
        faults := Filter(faults, IsLive(now));
      } else {
        FilterAll(faults, IsLive(now));
      }
    }

    method Add(request: FaultRequest, paramKey: Option<string>, now: int) returns (fault: ActiveFault)
      modifies this
      ensures counter == old(counter) + 1
      ensures fault == NewFault(counter, now, request, paramKey)
      ensures faults == Added(old(faults), now, fault)
    {
      counter := counter + 1;
      fault := NewFault(counter, now, request, paramKey);
      Expire(now);
      faults := Filter(faults, IsOther(fault.key)) + [fault];
    }

    method Clear(filter: ClearFilter, now: int) returns (removed: nat)
      modifies this`faults
      ensures faults == Cleared(old(faults), now, filter)
      ensures removed == |Active(old(faults), now)| - |faults|
    {
      Expire(now);
      var current := faults;
      faults := Filter(current, Escapes(filter));
      FilterMembers(current, Escapes(filter));
      removed := |current| - |faults|;
    }

    method List(now: int) returns (active: seq<ActiveFault>)
      modifies this`faults
      ensures active == faults == Active(old(faults), now)
    {
      Expire(now);
      active := faults;
    }

    method On(targetKind: TargetKind, targetId: string, kind: FaultKind, now: int) returns (found: bool)
      modifies this`faults
      ensures faults == Active(old(faults), now)
      ensures found <==> HasKey(faults, FaultKey(targetKind, targetId, kind))
    {
      Expire(now);
      found := exists f | f in faults :: f.key == FaultKey(targetKind, targetId, kind);
    }
  }

  ghost predicate HasKey(faults: seq<ActiveFault>, key: FaultKey) {
    exists f :: f in faults && f.key == key
  }

  // ---------------------------------------------------------------- the book without laziness

  datatype Op =
    | OpAdd(request: FaultRequest, paramKey: Option<string>, at: int)
    | OpClear(filter: ClearFilter, at: int)
    | OpLook(at: int)

  /** Faults and counter after a history of calls. */
  function BookAfter(ops: seq<Op>): (seq<ActiveFault>, nat) {
    if ops == [] then ([], 0)
    else
      var (faults, counter) := BookAfter(ops[..|ops| - 1]);
      match ops[|ops| - 1]
      case OpAdd(request, paramKey, at) =>
        (Added(faults, at, NewFault(counter + 1, at, request, paramKey)), counter + 1)
      case OpClear(filter, at) => (Cleared(faults, at, filter), counter)
      case OpLook(at) => (Active(faults, at), counter)
  }

  ghost predicate Monotone(ops: seq<Op>, now: int) {
    && (forall i, j :: 0 <= i < j < |ops| ==> ops[i].at <= ops[j].at)
    && (forall i :: 0 <= i < |ops| ==> ops[i].at <= now)
  }

  predicate Touches(op: Op, key: FaultKey) {
    match op
    case OpAdd(request, _, _) => request.key == key
    case OpClear(filter, _) =>
      && (filter.targetId.None? || filter.targetId == Some(key.targetId))
      && (filter.kind.None? || filter.kind == Some(key.kind))
    case OpLook(_) => false
  }

  /** The fault of the i-th call stands: nothing after it added the same key again or cleared it. */
  ghost predicate Stands(ops: seq<Op>, i: nat, key: FaultKey) {
    && i < |ops| && ops[i].OpAdd? && ops[i].request.key == key
    && forall j :: i < j < |ops| ==> !Touches(ops[j], key)
  }

  /** How many faults were ever added. */
  function Additions(ops: seq<Op>): nat {
    if ops == [] then 0 else Additions(ops[..|ops| - 1]) + if ops[|ops| - 1].OpAdd? then 1 else 0
  }

  /** The fault the i-th call added: numbered in turn, from its call on, for as long as it was asked for. */
  function FaultOf(ops: seq<Op>, i: nat): ActiveFault
    requires i < |ops| && ops[i].OpAdd?
  {
    var request := ops[i].request;
    ActiveFault(Additions(ops[..i]) + 1, request.key, ops[i].at, ops[i].at + 1000 * request.ttlSec,
                if request.key.kind == ExceptionReply then Some(request.exceptionCode) else None, ops[i].paramKey)
  }

  lemma {:induction false} CounterIsAdditions(ops: seq<Op>)
    ensures BookAfter(ops).1 == Additions(ops)
  {
    if ops != [] {
      CounterIsAdditions(ops[..|ops| - 1]);
    }
  }

  lemma FaultIsNew(ops: seq<Op>, i: nat)
    requires i < |ops| && ops[i].OpAdd?
    ensures FaultOf(ops, i) == NewFault(BookAfter(ops[..i]).1 + 1, ops[i].at, ops[i].request, ops[i].paramKey)
  {
    CounterIsAdditions(ops[..i]);
  }

  ghost predicate Stems(ops: seq<Op>, f: ActiveFault) {
    exists i :: 0 <= i < |ops| && Stands(ops, i, f.key) && ops[i].OpAdd? && f == FaultOf(ops, i)
  }

  lemma StemsOfOneMore(ops: seq<Op>, op: Op, f: ActiveFault)
    ensures Stems(ops + [op], f) <==>
            || (op.OpAdd? && f == NewFault(BookAfter(ops).1 + 1, op.at, op.request, op.paramKey))
            || (!Touches(op, f.key) && Stems(ops, f))
  {
    hide BookAfter, NewFault, Touches, Stands, FaultOf;
    var n := |ops|;
    var all := ops + [op];
    forall i | 0 <= i < n
      ensures Stands(all, i, f.key) <==> Stands(ops, i, f.key) && !Touches(op, f.key)
      ensures Stands(ops, i, f.key) ==> ops[i].OpAdd? && FaultOf(all, i) == FaultOf(ops, i)
    {
      StandsLonger(ops, op, i, f.key);
    }
    StandsLast(ops, op, f.key);
    if i :| 0 <= i < n && Stands(ops, i, f.key) && ops[i].OpAdd? && f == FaultOf(ops, i) && !Touches(op, f.key) {
      assert Stands(all, i, f.key) && all[i].OpAdd? && f == FaultOf(all, i);
    }
    if i :| 0 <= i < |all| && Stands(all, i, f.key) && all[i].OpAdd? && f == FaultOf(all, i) {
      assert i < n ==> Stands(ops, i, f.key) && ops[i].OpAdd? && f == FaultOf(ops, i);
    }
    if op.OpAdd? && f == NewFault(BookAfter(ops).1 + 1, op.at, op.request, op.paramKey) {
      NewFaultKey(BookAfter(ops).1 + 1, op.at, op.request, op.paramKey);
      assert Stands(all, n, f.key) && all[n].OpAdd? && f == FaultOf(all, n);
    }
  }

  lemma StandsLonger(ops: seq<Op>, op: Op, i: nat, key: FaultKey)
    requires i < |ops|
    ensures (ops + [op])[..i] == ops[..i]
    ensures Stands(ops + [op], i, key) <==> Stands(ops, i, key) && !Touches(op, key)
    ensures Stands(ops, i, key) ==> ops[i].OpAdd? && FaultOf(ops + [op], i) == FaultOf(ops, i)
  {
    hide Touches, Additions;
    var all := ops + [op];
    assert all[|ops|] == op;
    assert forall j :: 0 <= j < |ops| ==> all[j] == ops[j];
  }

  lemma StandsLast(ops: seq<Op>, op: Op, key: FaultKey)
    ensures Stands(ops + [op], |ops|, key) <==> op.OpAdd? && op.request.key == key
    ensures op.OpAdd? ==>
              FaultOf(ops + [op], |ops|) == NewFault(BookAfter(ops).1 + 1, op.at, op.request, op.paramKey)
  {
    hide BookAfter, NewFault;
    assert (ops + [op])[..|ops|] == ops;
    if op.OpAdd? {
      FaultIsNew(ops + [op], |ops|);
    }
  }

  lemma NewFaultKey(id: nat, now: int, request: FaultRequest, paramKey: Option<string>)
    ensures NewFault(id, now, request, paramKey).key == request.key
  {
  }

  /**
   Laziness is invisible. With a clock that does not run back, the faults the book reports are exactly those of
   additions that still stand and whose time is not up, however often it was looked at in between; and no key
   appears twice.
   */
  lemma {:induction false} LazyBookIsExact(ops: seq<Op>, now: int)
    requires Monotone(ops, now)
    ensures forall f :: f in Active(BookAfter(ops).0, now) <==> Stems(ops, f) && f.expiresAtMs > now
    ensures OneEach(BookAfter(ops).0)
  {
    hide NewFault, Touches, Stems, BookAfter, Active, OpResult, OneEach;
    if ops != [] {
      var n := |ops| - 1;
      var front, op := ops[..n], ops[n];
      assert ops == front + [op];
      var faults, counter := BookAfter(front).0, BookAfter(front).1;
      LazyBookIsExact(front, op.at);
      BookOfOneMore(front, op);
      AfterOp(faults, counter, op);
      var after := BookAfter(ops).0;
      ActiveMembers(faults, op.at);
      ActiveMembers(after, now);
      forall f ensures f in Active(after, now) <==> Stems(ops, f) && f.expiresAtMs > now {
        StemsOfOneMore(front, op, f);
      }
    } else {
      NothingYet(now);
      forall f ensures !Stems(ops, f) {
        NothingStems(f);
      }
    }
  }

  lemma NothingYet(now: int)
    ensures Active(BookAfter([]).0, now) == [] && OneEach(BookAfter([]).0)
  {
  }

  lemma BookOfOneMore(ops: seq<Op>, op: Op)
    ensures BookAfter(ops + [op]).0 == OpResult(BookAfter(ops).0, BookAfter(ops).1, op)
  {
    hide Added, Cleared, Active, NewFault;
    var all := ops + [op];
    assert all[..|all| - 1] == ops && all[|all| - 1] == op;
  }

  lemma ActiveMembers(faults: seq<ActiveFault>, now: int)
    ensures forall f :: f in Active(faults, now) <==> f in faults && f.expiresAtMs > now
  {
    FilterMembers(faults, IsLive(now));
  }

  lemma NothingStems(f: ActiveFault)
    ensures !Stems([], f)
  {
  }

  ghost predicate OneEach(faults: seq<ActiveFault>) {
    Pairwise(faults, (a: ActiveFault, b: ActiveFault) => a.key != b.key)
  }

  lemma AfterOp(faults: seq<ActiveFault>, counter: nat, op: Op)
    requires OneEach(faults)
    ensures var after := OpResult(faults, counter, op);
            && OneEach(after)
            && forall f :: f in after <==>
                 || (op.OpAdd? && f == NewFault(counter + 1, op.at, op.request, op.paramKey))
                 || (f in faults && f.expiresAtMs > op.at && !Touches(op, f.key))
  {
    hide NewFault;
    var differ := (a: ActiveFault, b: ActiveFault) => a.key != b.key;
    var live := Active(faults, op.at);
    FilterMembers(faults, IsLive(op.at));
    FilterPairwise(faults, IsLive(op.at), differ);
    match op
    case OpAdd(request, paramKey, at) =>
      var fault := NewFault(counter + 1, at, request, paramKey);
      NewFaultKey(counter + 1, at, request, paramKey);
      var kept := Filter(live, IsOther(fault.key));
      FilterMembers(live, IsOther(fault.key));
      FilterPairwise(live, IsOther(fault.key), differ);
      forall i | 0 <= i < |kept| ensures kept[i].key != fault.key {
        assert kept[i] in kept;
      }
    case OpClear(filter, at) =>
      FilterMembers(live, Escapes(filter));
      FilterPairwise(live, Escapes(filter), differ);
    case OpLook(at) =>
  }

  function OpResult(faults: seq<ActiveFault>, counter: nat, op: Op): seq<ActiveFault> {
    match op
    case OpAdd(request, paramKey, at) => Added(faults, at, NewFault(counter + 1, at, request, paramKey))
    case OpClear(filter, at) => Cleared(faults, at, filter)
    case OpLook(at) => Active(faults, at)
  }
}
