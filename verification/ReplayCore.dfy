/**
The core of a replay: frame by frame, both rule variants are evaluated from empty memory, raises open episodes and
clears close them. What it hands to the tables is what the pairing of episodes relies on.
*/
module ReplayCore {
  import opened Wrappers
  import opened Sequences
  import opened AlarmEngine
  import opened AlarmRuns
  import opened AlarmTable
  import opened AlarmAgreement
  import opened ReplayPairing

  /** Device codes and their ids in the database. */
  type Refs = map<string, int>

  /** The key of an open episode: device, metric and raise time. */
  datatype OpenKey = OpenKey(deviceCode: string, metricKey: string, raisedAt: int)

  /** The text the key is kept under; numbers print without the separator, each in its own way. */
  function KeyText(digits: Stamp, key: OpenKey): string {
    key.deviceCode + [SEPARATOR] + key.metricKey + [SEPARATOR] + digits(key.raisedAt)
  }

  /** So keys may stand for their texts. */
  lemma KeyTextIsInjective(digits: Stamp, a: OpenKey, b: OpenKey)
    requires GoodStamp(digits) && Plain(a.deviceCode) && Plain(b.deviceCode) && KeyText(digits, a) == KeyText(digits, b)
    ensures a == b
  {
    hide GoodStamp;
    assert SEPARATOR !in digits(a.raisedAt) && SEPARATOR !in digits(b.raisedAt) by { PlainDigits(digits); }
    var restA := a.metricKey + [SEPARATOR] + digits(a.raisedAt);
    var restB := b.metricKey + [SEPARATOR] + digits(b.raisedAt);
    assert KeyText(digits, a) == a.deviceCode + [SEPARATOR] + restA;
    assert KeyText(digits, b) == b.deviceCode + [SEPARATOR] + restB;
    SplitAtFirst(SEPARATOR, a.deviceCode, b.deviceCode, restA, restB);
    SplitAtLast(SEPARATOR, a.metricKey, b.metricKey, digits(a.raisedAt), digits(b.raisedAt));
    SameDigits(digits, a.raisedAt, b.raisedAt);
  }

  lemma PlainDigits(digits: Stamp)
    requires GoodStamp(digits)
    ensures forall n :: SEPARATOR !in digits(n)
  {
  }

  lemma SameDigits(digits: Stamp, a: int, b: int)
    requires GoodStamp(digits) && digits(a) == digits(b)
    ensures a == b
  {
  }

  // ---------------------------------------------------------------- transitions into episodes

  /** The episodes of one variant, and where the open ones stand. */
  datatype Book = Book(episodes: seq<Episode>, open: map<OpenKey, nat>)

  function KeyOfTransition(t: Transition): OpenKey {
    OpenKey(t.deviceCode, t.metricKey, t.raisedAt)
  }

  function Entered(book: Book, variant: Variant, deviceId: int, t: Transition): Book {
    var key := KeyOfTransition(t);
    if t.kind.ToRaised? then
      Book(book.episodes + [Episode(variant, SlotKey(deviceId, t.metricKey, t.mode), t.raisedAt, None)],
           book.open[key := |book.episodes|])
    else if key in book.open && book.open[key] < |book.episodes| then
      var i := book.open[key];
      Book(book.episodes[i := book.episodes[i].(clearedAt := Some(t.occurredAt))], book.open - {key})
    else book
  }

  function AllEntered(book: Book, variant: Variant, deviceId: int, ts: seq<Transition>): Book {
    if ts == [] then book
    else Entered(AllEntered(book, variant, deviceId, ts[..|ts| - 1]), variant, deviceId, ts[|ts| - 1])
  }

  lemma {:induction false} EnteredInParts(book: Book, variant: Variant, deviceId: int, a: seq<Transition>,
      b: seq<Transition>)
    ensures AllEntered(book, variant, deviceId, a + b) ==
            AllEntered(AllEntered(book, variant, deviceId, a), variant, deviceId, b)
  {
    hide Entered;
    if b == [] {
      assert a + b == a;
    } else {
      assert (a + b)[..|a + b| - 1] == a + b[..|b| - 1];
      EnteredInParts(book, variant, deviceId, a, b[..|b| - 1]);
    }
  }

  lemma {:induction false} EpisodesGrow(
    book: Book, variant: Variant, deviceId: int, ts: seq<Transition>, i: nat)
    requires i < |ts| && IsRaise(ts[i])
    ensures |AllEntered(book, variant, deviceId, ts).episodes| >
            |AllEntered(book, variant, deviceId, ts[..i]).episodes|
    decreases |ts|
  {
    var n := |ts| - 1;
    if i < n {
      EpisodesGrow(book, variant, deviceId, ts[..n], i);
      assert ts[..n][..i] == ts[..i];
    }
  }

  /** The memory of one variant: alarms of the devices, its episodes and the open ones among them. */
  class VariantMemory {
    const variant: Variant
    const rules: map<string, seq<AlarmRule>>
    var alarms: Memory
    var episodes: seq<Episode>
    var open: map<OpenKey, nat>

    constructor (variant: Variant, rules: map<string, seq<AlarmRule>>)
      ensures this.variant == variant && this.rules == rules && alarms == map[] && Contents() == Book([], map[])
    {
      this.variant, this.rules := variant, rules;
      alarms, episodes, open := map[], [], map[];
    }

    function Contents(): Book
      reads this
    {
      Book(episodes, open)
    }

    /** The loop over a frame's transitions; one episode too many ends the run. */
    method ApplyTransitions(transitions: seq<Transition>, deviceId: int, maxEpisodes: nat) returns (withinLimit: bool)
      modifies this`episodes, this`open
      ensures withinLimit ==> Contents() == AllEntered(old(Contents()), variant, deviceId, transitions)
      ensures !withinLimit ==> |episodes| >= maxEpisodes
      ensures |old(episodes)| <= maxEpisodes ==>
                (withinLimit <==>
                   |AllEntered(old(Contents()), variant, deviceId, transitions).episodes| <= maxEpisodes)
    {
      for i := 0 to |transitions|
        invariant Contents() == AllEntered(old(Contents()), variant, deviceId, transitions[..i])
        invariant |old(episodes)| <= maxEpisodes ==> |episodes| <= maxEpisodes
      {
        assert transitions[..i + 1][..i] == transitions[..i];
        var t := transitions[i];
        var key := KeyOfTransition(t);
        if t.kind.ToRaised? {
          if |episodes| >= maxEpisodes {
            EpisodesGrow(old(Contents()), variant, deviceId, transitions, i);
            return false;
          }
          open := open[key := |episodes|];
          episodes := episodes + [Episode(variant, SlotKey(deviceId, t.metricKey, t.mode), t.raisedAt, None)];
          continue;
        }
        if key in open && open[key] < |episodes| {
          var index := open[key];
          episodes := episodes[index := episodes[index].(clearedAt := Some(t.occurredAt))];
          open := open - {key};
        }
      }
      assert transitions[..|transitions|] == transitions;
      withinLimit := true;
    }

    /** One accepted frame of a device, evaluated under the variant's rules. */
    method Evaluate(frame: Cycle, deviceId: int, maxEpisodes: nat) returns (withinLimit: bool)
      modifies this
      ensures alarms == AfterFrame(old(alarms), RuledBy(frame, rules))
      ensures withinLimit ==>
                Contents() == AllEntered(old(Contents()), variant, deviceId, MadeBy(old(alarms), RuledBy(frame, rules)))
      ensures !withinLimit ==> |episodes| >= maxEpisodes
      ensures |old(episodes)| <= maxEpisodes ==>
                (withinLimit <==>
                   |AllEntered(old(Contents()), variant, deviceId, MadeBy(old(alarms), RuledBy(frame, rules))).episodes|
                   <= maxEpisodes)
    {
      hide KeysOfCycle, AllEntered;
      var cycle := RuledBy(frame, rules);
      var prevState := if cycle.deviceCode in alarms then alarms[cycle.deviceCode] else map[];
      var transitions, state := EvaluateDeviceAlarms(cycle, prevState);
      alarms := alarms[cycle.deviceCode := state];
      withinLimit := ApplyTransitions(transitions, deviceId, maxEpisodes);
    }
  }

  /** The frame with the rules of its device, if it has any. */
  function RuledBy(frame: Cycle, rules: map<string, seq<AlarmRule>>): Cycle {
    frame.(rules := if frame.deviceCode in rules then rules[frame.deviceCode] else [])
  }

  // ---------------------------------------------------------------- one variant, one slot

  ghost predicate GoodRefs(refs: Refs) {
    forall a, b :: a in refs && b in refs && refs[a] == refs[b] ==> a == b
  }

  /** The i-th episode is open and the key's. */
  predicate Points(refs: Refs, episodes: seq<Episode>, i: nat, key: OpenKey) {
    && i < |episodes| && key.deviceCode in refs
    && episodes[i].key.deviceId == refs[key.deviceCode] && episodes[i].key.metricKey == key.metricKey
    && episodes[i].raisedAt == key.raisedAt && episodes[i].clearedAt.None?
  }

  ghost predicate Listed(open: map<OpenKey, nat>, i: nat) {
    exists key :: key in open && open[key] == i
  }

  predicate SlotTells(memory: Memory, key: OpenKey) {
    var state := SlotState(memory, key.deviceCode, key.metricKey);
    state.Raised? && state.raisedAt == key.raisedAt
  }

  /** The open episodes are exactly the raised metrics, each under its key. */
  ghost predicate Consistent(refs: Refs, memory: Memory, book: Book) {
    && (forall key :: key in book.open ==> Points(refs, book.episodes, book.open[key], key))
    && (forall i :: 0 <= i < |book.episodes| && book.episodes[i].clearedAt.None? ==> Listed(book.open, i))
    && (forall key :: key in book.open <==> SlotTells(memory, key))
  }

  predicate Within(e: Episode, from: int, to: int) {
    && from <= e.raisedAt < to
    && (e.clearedAt.Some? ==> e.raisedAt < e.clearedAt.value < to)
  }

  /** Raised inside the window, and cleared, if at all, later but inside it. */
  ghost predicate InWindow(episodes: seq<Episode>, from: int, to: int) {
    forall i :: 0 <= i < |episodes| ==> Within(episodes[i], from, to)
  }

  predicate SameRow(a: Episode, b: Episode) {
    && a.variant == b.variant && a.key.deviceId == b.key.deviceId && a.key.metricKey == b.key.metricKey
    && a.raisedAt == b.raisedAt
  }

  /** No two episodes have the same primary key. */
  ghost predicate OneRowEach(episodes: seq<Episode>) {
    forall i, j :: 0 <= i < j < |episodes| ==> !SameRow(episodes[i], episodes[j])
  }

  ghost predicate OfVariantOnly(episodes: seq<Episode>, variant: Variant) {
    forall i :: 0 <= i < |episodes| ==> episodes[i].variant == variant
  }

  /** No episode of the slot was raised at `now` or later. */
  ghost predicate Younger(episodes: seq<Episode>, deviceId: int, metricKey: string, now: int) {
    forall i ::
      0 <= i < |episodes| && episodes[i].key.deviceId == deviceId && episodes[i].key.metricKey == metricKey ==>
        episodes[i].raisedAt < now
  }

  predicate NewIn(e: Episode, deviceId: int, now: int) {
    e.key.deviceId == deviceId && e.raisedAt == now
  }

  /** Old episodes keep their identity; new ones are of this device, of one of these metrics and of this moment. */
  ghost predicate OnlyAdds(before: seq<Episode>, after: seq<Episode>, deviceId: int, now: int, keys: seq<string>) {
    && |before| <= |after|
    && (forall i :: 0 <= i < |before| ==> SameRow(before[i], after[i]))
    && (forall i :: |before| <= i < |after| ==> NewIn(after[i], deviceId, now) && after[i].key.metricKey in keys)
  }

  ghost predicate Sane(refs: Refs, variant: Variant, from: int, to: int, memory: Memory, book: Book) {
    && Consistent(refs, memory, book) && InWindow(book.episodes, from, to)
    && OneRowEach(book.episodes) && OfVariantOnly(book.episodes, variant)
  }

  lemma Raising(refs: Refs, variant: Variant, from: int, to: int, memory: Memory, book: Book, t: Transition)
    requires GoodRefs(refs) && Sane(refs, variant, from, to, memory, book) && t.deviceCode in refs
    requires IsRaise(t) && from <= t.raisedAt < to
    requires SlotState(memory, t.deviceCode, t.metricKey).Quiet?
    requires Younger(book.episodes, refs[t.deviceCode], t.metricKey, t.raisedAt)
    ensures var raised := Raised(t.boundary, t.severity, t.threshold, t.raisedAt, t.mode);
            var after := Entered(book, variant, refs[t.deviceCode], t);
            && Sane(refs, variant, from, to, SetSlot(memory, t.deviceCode, t.metricKey, raised), after)
            && OnlyAdds(book.episodes, after.episodes, refs[t.deviceCode], t.raisedAt, [t.metricKey])
  {
    hide SlotState, SetSlot, Consistent;
    RaisedIsConsistent(refs, memory, book, variant, t);
  }

  lemma RaisedIsConsistent(refs: Refs, memory: Memory, book: Book, variant: Variant, t: Transition)
    requires GoodRefs(refs) && Consistent(refs, memory, book) && t.deviceCode in refs && IsRaise(t)
    requires SlotState(memory, t.deviceCode, t.metricKey).Quiet?
    ensures var raised := Raised(t.boundary, t.severity, t.threshold, t.raisedAt, t.mode);
            Consistent(refs, SetSlot(memory, t.deviceCode, t.metricKey, raised),
                       Entered(book, variant, refs[t.deviceCode], t))
  {
    hide SlotState, SetSlot;
    var raised := Raised(t.boundary, t.severity, t.threshold, t.raisedAt, t.mode);
    var next := SetSlot(memory, t.deviceCode, t.metricKey, raised);
    SlotsAfterSet(memory, t.deviceCode, t.metricKey, raised);
    var key := KeyOfTransition(t);
    var after := Entered(book, variant, refs[t.deviceCode], t);
    forall i | 0 <= i < |after.episodes| && after.episodes[i].clearedAt.None? ensures Listed(after.open, i) {
      if i < |book.episodes| {
        assert Listed(book.open, i);
        var k :| k in book.open && book.open[k] == i;
        assert SlotTells(memory, k) && k != key;
        assert k in after.open && after.open[k] == i;
      } else {
        assert key in after.open && after.open[key] == i;
      }
    }
    forall k ensures k in after.open <==> SlotTells(next, k) {
      assert k in book.open <==> SlotTells(memory, k);
    }
  }

  lemma Clearing(
    refs: Refs, variant: Variant, from: int, to: int, memory: Memory, book: Book, t: Transition, next: MetricState)
    requires GoodRefs(refs) && Sane(refs, variant, from, to, memory, book) && t.deviceCode in refs
    requires IsClear(t) && t.occurredAt < to && next.Quiet?
    requires SlotState(memory, t.deviceCode, t.metricKey) ==
             Raised(t.boundary, t.severity, t.threshold, t.raisedAt, t.mode)
    requires Younger(book.episodes, refs[t.deviceCode], t.metricKey, t.occurredAt)
    ensures var after := Entered(book, variant, refs[t.deviceCode], t);
            && KeyOfTransition(t) in book.open
            && Sane(refs, variant, from, to, SetSlot(memory, t.deviceCode, t.metricKey, next), after)
            && OnlyAdds(book.episodes, after.episodes, refs[t.deviceCode], t.occurredAt, [])
  {
    hide SlotState, SetSlot, Consistent;
    ClearedIsConsistent(refs, memory, book, variant, t, next);
    var key := KeyOfTransition(t);
    PointsAt(refs, memory, book, key);
  }

  lemma PointsAt(refs: Refs, memory: Memory, book: Book, key: OpenKey)
    requires Consistent(refs, memory, book) && key in book.open
    ensures Points(refs, book.episodes, book.open[key], key)
  {
    hide SlotTells;
  }

  lemma ClearedIsConsistent(refs: Refs, memory: Memory, book: Book, variant: Variant, t: Transition, next: MetricState)
    requires GoodRefs(refs) && Consistent(refs, memory, book) && t.deviceCode in refs
    requires IsClear(t) && next.Quiet?
    requires SlotState(memory, t.deviceCode, t.metricKey) ==
             Raised(t.boundary, t.severity, t.threshold, t.raisedAt, t.mode)
    ensures KeyOfTransition(t) in book.open
    ensures Consistent(refs, SetSlot(memory, t.deviceCode, t.metricKey, next),
                       Entered(book, variant, refs[t.deviceCode], t))
  {
    hide SlotState, SetSlot;
    SlotsAfterSet(memory, t.deviceCode, t.metricKey, next);
    var key := KeyOfTransition(t);
    assert SlotTells(memory, key);
    var index := book.open[key];
    assert Points(refs, book.episodes, index, key);
    var after := Entered(book, variant, refs[t.deviceCode], t);
    forall k | k in after.open ensures Points(refs, after.episodes, after.open[k], k) {
      assert Points(refs, book.episodes, book.open[k], k);
      assert book.open[k] != index;
    }
    forall i | 0 <= i < |after.episodes| && after.episodes[i].clearedAt.None? ensures Listed(after.open, i) {
      assert i != index && Listed(book.open, i);
      var k :| k in book.open && book.open[k] == i;
      assert k in after.open && after.open[k] == i;
    }
    var memoryAfter := SetSlot(memory, t.deviceCode, t.metricKey, next);
    forall k ensures k in after.open <==> SlotTells(memoryAfter, k) {
      assert k in book.open <==> SlotTells(memory, k);
    }
  }

  lemma NothingHappens(
    refs: Refs, variant: Variant, from: int, to: int, memory: Memory, book: Book, d: string, m: string,
    next: MetricState)
    requires Sane(refs, variant, from, to, memory, book)
    requires next == SlotState(memory, d, m) || (next.Quiet? && SlotState(memory, d, m).Quiet?)
    ensures Sane(refs, variant, from, to, SetSlot(memory, d, m, next), book)
  {
    hide SlotState, SetSlot;
    SlotsAfterSet(memory, d, m, next);
    var after := SetSlot(memory, d, m, next);
    forall k ensures k in book.open <==> SlotTells(after, k) {
      assert k in book.open <==> SlotTells(memory, k);
    }
  }

  lemma SlotEnters(
    refs: Refs, variant: Variant, from: int, to: int, memory: Memory, book: Book, cycle: Cycle, m: string)
    requires GoodRefs(refs) && Sane(refs, variant, from, to, memory, book) && cycle.deviceCode in refs
    requires from <= cycle.nowMs < to && Younger(book.episodes, refs[cycle.deviceCode], m, cycle.nowMs)
    ensures var d := cycle.deviceCode;
            var step := StepMetric(cycle, m, SlotState(memory, d, m));
            var after := AllEntered(book, variant, refs[d], AsSeq(step.1));
            && Sane(refs, variant, from, to, SetSlot(memory, d, m, step.0), after)
            && OnlyAdds(book.episodes, after.episodes, refs[d], cycle.nowMs, [m])
  {
    hide StepMetric, SlotState, SetSlot, Sane, GoodRefs, Entered, Younger;
    var d := cycle.deviceCode;
    var prev := SlotState(memory, d, m);
    var step := StepMetric(cycle, m, prev);
    StepCases(cycle, m, prev);
    if step.1.None? {
      NothingHappens(refs, variant, from, to, memory, book, d, m, step.0);
    } else {
      var t := step.1.value;
      assert [t][..0] == [];
      assert AllEntered(book, variant, refs[d], [t]) == Entered(book, variant, refs[d], t);
      if IsRaise(t) {
        Raising(refs, variant, from, to, memory, book, t);
      } else {
        Clearing(refs, variant, from, to, memory, book, t, step.0);
      }
    }
  }

  // ---------------------------------------------------------------- one variant, one frame

  lemma AddsChain(a: seq<Episode>, b: seq<Episode>, c: seq<Episode>, deviceId: int, now: int, keys: seq<string>,
      m: string)
    requires OnlyAdds(a, b, deviceId, now, keys) && OnlyAdds(b, c, deviceId, now, [m])
    ensures OnlyAdds(a, c, deviceId, now, keys + [m])
  {
    forall i | |a| <= i < |c| ensures NewIn(c[i], deviceId, now) && c[i].key.metricKey in keys + [m] {
      if i < |b| {
        assert NewIn(b[i], deviceId, now) && SameRow(b[i], c[i]);
      }
    }
  }

  /** A metric the loop has not come to yet has no episode of this moment. */
  lemma StillYounger(
    before: seq<Episode>, after: seq<Episode>, deviceId: int, now: int, keys: seq<string>, m: string)
    requires OnlyAdds(before, after, deviceId, now, keys) && m !in keys && Younger(before, deviceId, m, now)
    ensures Younger(after, deviceId, m, now)
  {
    forall i | 0 <= i < |after| && after[i].key.deviceId == deviceId && after[i].key.metricKey == m
      ensures after[i].raisedAt < now
    {
      if i < |before| {
        assert SameRow(before[i], after[i]);
      }
    }
  }

  lemma {:induction false} FrameEnters(
    refs: Refs, variant: Variant, from: int, to: int, memory: Memory, book: Book, cycle: Cycle, keys: seq<string>)
    requires GoodRefs(refs) && Sane(refs, variant, from, to, memory, book) && cycle.deviceCode in refs && Distinct(keys)
    requires from <= cycle.nowMs < to
    requires forall m :: m in keys ==> Younger(book.episodes, refs[cycle.deviceCode], m, cycle.nowMs)
    ensures var ts := TransitionsAfter(cycle, DeviceOf(memory, cycle.deviceCode), keys);
            var after := AllEntered(book, variant, refs[cycle.deviceCode], ts);
            && Sane(refs, variant, from, to, Through(memory, cycle, keys), after)
            && OnlyAdds(book.episodes, after.episodes, refs[cycle.deviceCode], cycle.nowMs, keys)
  {
    hide Sane, StepMetric, SlotState, PrevOf, DeviceOf, SetSlot, AllEntered, GoodRefs, OnlyAdds, Younger;
    var d := cycle.deviceCode;
    if keys == [] {
      NothingEntered(book, variant, refs[d], cycle.nowMs);
    } else {
      var n := |keys| - 1;
      var front, m := keys[..n], keys[n];
      assert keys == front + [m];
      FrameEnters(refs, variant, from, to, memory, book, cycle, front);
      var ts := TransitionsAfter(cycle, DeviceOf(memory, d), front);
      var mid := AllEntered(book, variant, refs[d], ts);
      var step := StepMetric(cycle, m, SlotState(memory, d, m));
      assert m !in front;
      SlotsThrough(memory, cycle, front);
      StillYounger(book.episodes, mid.episodes, refs[d], cycle.nowMs, front, m);
      SlotEnters(refs, variant, from, to, Through(memory, cycle, front), mid, cycle, m);
      EnteredInParts(book, variant, refs[d], ts, AsSeq(step.1));
      AddsChain(book.episodes, mid.episodes, AllEntered(mid, variant, refs[d], AsSeq(step.1)).episodes, refs[d],
                cycle.nowMs, front, m);
      SlotIsPrev(memory, d, m);
    }
  }

  lemma NothingEntered(book: Book, variant: Variant, deviceId: int, now: int)
    ensures AllEntered(book, variant, deviceId, []) == book && OnlyAdds(book.episodes, book.episodes, deviceId, now, [])
  {
  }

  lemma SaneBySlot(refs: Refs, variant: Variant, from: int, to: int, a: Memory, b: Memory, book: Book)
    requires Sane(refs, variant, from, to, a, book) && SameSlots(a, b)
    ensures Sane(refs, variant, from, to, b, book)
  {
    hide SlotState;
    forall k ensures k in book.open <==> SlotTells(b, k) {
      assert k in book.open <==> SlotTells(a, k);
    }
  }

  // ---------------------------------------------------------------- the whole run

  /** A raw frame; what the parser and the spike filter make of it is given, and absent if they reject it. */
  datatype RawFrame = RawFrame(deviceCode: string, atMs: int, outcome: Option<Observation>)

  datatype Observation = Observation(mode: DeviceMode, metrics: map<string, MetricSample>)

  datatype Input = Input(from: int, to: int, selected: set<string>, refs: Refs)

  datatype Verdict = Ignored | Matched | RejectedFrame | TooManyEpisodes

  function CycleOf(raw: RawFrame): Cycle
    requires raw.outcome.Some?
  {
    Cycle(raw.deviceCode, raw.outcome.value.mode, raw.outcome.value.metrics, [], raw.atMs)
  }

  predicate Concerns(input: Input, raw: RawFrame) {
    raw.deviceCode in input.selected && input.from <= raw.atMs < input.to
  }

  predicate Accepts(input: Input, lastAccepted: map<string, int>, raw: RawFrame) {
    && Concerns(input, raw)
    && (raw.deviceCode in lastAccepted ==> lastAccepted[raw.deviceCode] < raw.atMs)
    && raw.outcome.Some? && raw.deviceCode in input.refs
  }

  /** One variant's memory and book after an accepted frame. */
  datatype VariantState = VariantState(alarms: Memory, book: Book)

  ghost function AfterCycle(
    input: Input, variant: Variant, rules: map<string, seq<AlarmRule>>, v: VariantState, cycle: Cycle): VariantState
    requires cycle.deviceCode in input.refs
  {
    var ruled := RuledBy(cycle, rules);
    VariantState(AfterFrame(v.alarms, ruled),
                 AllEntered(v.book, variant, input.refs[cycle.deviceCode], MadeBy(v.alarms, ruled)))
  }

  /** Times of the last accepted frames and the state of one variant, after the frames of a run. */
  datatype RunState = RunState(lastAccepted: map<string, int>, v: VariantState)

  ghost function RunOf(input: Input, variant: Variant, rules: map<string, seq<AlarmRule>>, frames: seq<RawFrame>)
      : RunState
  {
    if frames == [] then RunState(map[], VariantState(map[], Book([], map[])))
    else
      var before := RunOf(input, variant, rules, frames[..|frames| - 1]);
      var raw := frames[|frames| - 1];
      if Accepts(input, before.lastAccepted, raw) then
        RunState(before.lastAccepted[raw.deviceCode := raw.atMs],
                 AfterCycle(input, variant, rules, before.v, CycleOf(raw)))
      else before
  }

  lemma RunOfOneMore(
    input: Input, variant: Variant, rules: map<string, seq<AlarmRule>>, frames: seq<RawFrame>, raw: RawFrame)
    ensures var before := RunOf(input, variant, rules, frames);
            RunOf(input, variant, rules, frames + [raw]) ==
            if Accepts(input, before.lastAccepted, raw) then
              RunState(before.lastAccepted[raw.deviceCode := raw.atMs],
                       AfterCycle(input, variant, rules, before.v, CycleOf(raw)))
            else before
  {
    hide AfterCycle, Accepts;
    assert (frames + [raw])[..|frames|] == frames;
  }

  /** Episodes are no younger than the last accepted frame of their device. */
  ghost predicate Dated(refs: Refs, lastAccepted: map<string, int>, episodes: seq<Episode>) {
    forall i, d :: 0 <= i < |episodes| && d in refs && refs[d] == episodes[i].key.deviceId ==>
      d in lastAccepted && episodes[i].raisedAt <= lastAccepted[d]
  }

  ghost predicate RunSane(input: Input, variant: Variant, s: RunState) {
    Sane(input.refs, variant, input.from, input.to, s.v.alarms, s.v.book)
    && Dated(input.refs, s.lastAccepted, s.v.book.episodes)
  }

  lemma AcceptedFrameKeepsSane(
    input: Input, variant: Variant, rules: map<string, seq<AlarmRule>>, s: RunState, raw: RawFrame)
    requires GoodRefs(input.refs) && RunSane(input, variant, s) && Accepts(input, s.lastAccepted, raw)
    ensures RunSane(input, variant,
                    RunState(s.lastAccepted[raw.deviceCode := raw.atMs],
                             AfterCycle(input, variant, rules, s.v, CycleOf(raw))))
  {
    hide Sane, GoodRefs, StatesAfter, TransitionsAfter, KeysOfCycle, AllEntered, SlotState;
    var d := raw.deviceCode;
    var cycle := RuledBy(CycleOf(raw), rules);
    var keys := KeysOfCycle(cycle, DeviceOf(s.v.alarms, d));
    KeysAreDistinct(cycle, DeviceOf(s.v.alarms, d));
    FrameEnters(input.refs, variant, input.from, input.to, s.v.alarms, s.v.book, cycle, keys);
    ThroughAllIsTheFrame(s.v.alarms, cycle);
    var after := AfterCycle(input, variant, rules, s.v, CycleOf(raw));
    SaneBySlot(input.refs, variant, input.from, input.to, Through(s.v.alarms, cycle, keys), after.alarms, after.book);
    DatesMove(input.refs, s.lastAccepted, s.v.book.episodes, after.book.episodes, d, raw.atMs, keys);
  }

  lemma DatesMove(
    refs: Refs, lastAccepted: map<string, int>, before: seq<Episode>, after: seq<Episode>, d: string, now: int,
    keys: seq<string>)
    requires GoodRefs(refs) && d in refs && Dated(refs, lastAccepted, before)
    requires OnlyAdds(before, after, refs[d], now, keys) && (d in lastAccepted ==> lastAccepted[d] < now)
    ensures Dated(refs, lastAccepted[d := now], after)
  {
    forall i, c | 0 <= i < |after| && c in refs && refs[c] == after[i].key.deviceId
      ensures c in lastAccepted[d := now] && after[i].raisedAt <= lastAccepted[d := now][c]
    {
      if i < |before| {
        assert SameRow(before[i], after[i]);
      } else {
        assert NewIn(after[i], refs[d], now);
      }
    }
  }

  lemma {:induction false} RunStaysSane(input: Input, variant: Variant, rules: map<string, seq<AlarmRule>>,
      frames: seq<RawFrame>)
    requires GoodRefs(input.refs)
    ensures RunSane(input, variant, RunOf(input, variant, rules, frames))
  {
    hide GoodRefs, RunSane, AfterCycle;
    if frames == [] {
      NothingIsSane(input, variant);
    } else {
      var n := |frames| - 1;
      RunStaysSane(input, variant, rules, frames[..n]);
      var before := RunOf(input, variant, rules, frames[..n]);
      if Accepts(input, before.lastAccepted, frames[n]) {
        AcceptedFrameKeepsSane(input, variant, rules, before, frames[n]);
      }
    }
  }

  lemma NothingIsSane(input: Input, variant: Variant)
    ensures RunSane(input, variant, RunState(map[], VariantState(map[], Book([], map[]))))
  {
  }

  /** The rows a run hands over: both variants, baseline first. */
  ghost function EpisodesOf(
    input: Input, baseline: map<string, seq<AlarmRule>>, patched: map<string, seq<AlarmRule>>, frames: seq<RawFrame>)
    : seq<Episode>
  {
    RunOf(input, Baseline, baseline, frames).v.book.episodes + RunOf(input, Patched, patched, frames).v.book.episodes
  }

  /**
   Whatever frames a replay reads: its episodes are raised inside the window, and cleared, if at all, later but
   inside it; no two share a primary key, so none is lost on insertion; and the ones still open are exactly the
   metrics raised in the memory of their variant.
   */
  lemma EpisodesAreSound(
    input: Input, baseline: map<string, seq<AlarmRule>>, patched: map<string, seq<AlarmRule>>, frames: seq<RawFrame>)
    requires GoodRefs(input.refs)
    ensures var rows := EpisodesOf(input, baseline, patched, frames);
            && InWindow(rows, input.from, input.to) && OneRowEach(rows) && ReplayPairing.WellTimed(rows, input.to)
    ensures forall variant: Variant, rules ::
              Consistent(input.refs, RunOf(input, variant, rules, frames).v.alarms,
                         RunOf(input, variant, rules, frames).v.book)
  {
    hide RunOf, Consistent;
    RunStaysSane(input, Baseline, baseline, frames);
    RunStaysSane(input, Patched, patched, frames);
    forall variant: Variant, rules
      ensures Consistent(input.refs, RunOf(input, variant, rules, frames).v.alarms,
                         RunOf(input, variant, rules, frames).v.book)
    {
      RunStaysSane(input, variant, rules, frames);
    }
  }

  /** So the summary of what a replay writes is the brute-force one, without any condition left. */
  lemma SummaryOfAReplay(
    input: Input, baseline: map<string, seq<AlarmRule>>, patched: map<string, seq<AlarmRule>>, frames: seq<RawFrame>,
    key: SlotKey)
    requires GoodRefs(input.refs)
    ensures var rows := EpisodesOf(input, baseline, patched, frames);
            Summary(rows, key, input.to) ==
            SummaryRow(Count(rows, OfVariant(key, Baseline)), Count(rows, OfVariant(key, Patched)),
                       Count(rows, Unpaired(rows, key, Patched, input.to)),
                       Count(rows, Unpaired(rows, key, Baseline, input.to)))
  {
    EpisodesAreSound(input, baseline, patched, frames);
    SummaryIsBruteForce(EpisodesOf(input, baseline, patched, frames), key, input.to);
  }

  // ---------------------------------------------------------------- the core as an object

  class Core {
    const input: Input
    const maxEpisodes: nat
    const baseline: VariantMemory
    const patched: VariantMemory
    var lastAccepted: map<string, int>
    var matched: nat
    var rejected: nat
    /** Frames taken so far. */
    ghost var frames: seq<RawFrame>

    ghost predicate Valid()
      reads this, baseline, patched
    {
      && |baseline.episodes| <= maxEpisodes && |patched.episodes| <= maxEpisodes
      && baseline != patched && baseline.variant == Baseline && patched.variant == Patched
      && RunOf(input, Baseline, baseline.rules, frames) ==
         RunState(lastAccepted, VariantState(baseline.alarms, baseline.Contents()))
      && RunOf(input, Patched, patched.rules, frames) ==
         RunState(lastAccepted, VariantState(patched.alarms, patched.Contents()))
    }

    constructor (
      input: Input, baselineRules: map<string, seq<AlarmRule>>, patchedRules: map<string, seq<AlarmRule>>,
      maxEpisodes: nat)
      ensures Valid() && fresh(baseline) && fresh(patched) && frames == []
      ensures this.input == input && this.maxEpisodes == maxEpisodes && matched == 0 && rejected == 0
      ensures baseline.rules == baselineRules && patched.rules == patchedRules
    {
      this.input, this.maxEpisodes := input, maxEpisodes;
      baseline := new VariantMemory(Baseline, baselineRules);
      patched := new VariantMemory(Patched, patchedRules);
      lastAccepted, matched, rejected, frames := map[], 0, 0, [];
    }

    /** One raw frame: not ours, refused, or evaluated under both variants' rules. */
    method Frame(raw: RawFrame) returns (verdict: Verdict)
      requires Valid()
      modifies this, baseline, patched
      ensures verdict != TooManyEpisodes ==> Valid() && frames == old(frames) + [raw]
      ensures verdict == Ignored <==> !Concerns(input, raw)
      ensures verdict == RejectedFrame <==> Concerns(input, raw) && !Accepts(input, old(lastAccepted), raw)
      ensures verdict == TooManyEpisodes ==>
                |baseline.episodes| >= maxEpisodes || |patched.episodes| >= maxEpisodes
      ensures matched == old(matched) + if verdict in {Matched, TooManyEpisodes} then 1 else 0
      ensures rejected == old(rejected) + if verdict == RejectedFrame then 1 else 0
    {
      hide AfterFrame, MadeBy, AllEntered, RunOf, RuledBy;
      RunOfOneMore(input, Baseline, baseline.rules, frames, raw);
      RunOfOneMore(input, Patched, patched.rules, frames, raw);
      frames := frames + [raw];
      if raw.deviceCode !in input.selected {
        return Ignored;
      }
      if !(input.from <= raw.atMs < input.to) {
        return Ignored;
      }
      if raw.deviceCode in lastAccepted && raw.atMs <= lastAccepted[raw.deviceCode] {
        rejected := rejected + 1;
        return RejectedFrame;
      }
      if raw.outcome.None? || raw.deviceCode !in input.refs {
        rejected := rejected + 1;
        return RejectedFrame;
      }
      lastAccepted := lastAccepted[raw.deviceCode := raw.atMs];
      matched := matched + 1;
      var ok := baseline.Evaluate(CycleOf(raw), input.refs[raw.deviceCode], maxEpisodes);
      if !ok {
        return TooManyEpisodes;
      }
      ok := patched.Evaluate(CycleOf(raw), input.refs[raw.deviceCode], maxEpisodes);
      verdict := if ok then Matched else TooManyEpisodes;
    }

    method Episodes() returns (rows: seq<Episode>)
      requires Valid()
      ensures rows == EpisodesOf(input, baseline.rules, patched.rules, frames)
    {
      rows := baseline.episodes + patched.episodes;
    }
  }

  // ---------------------------------------------------------------- starting a replay

  function IsRuleOf(d: string): AlarmRule -> bool {
    (rule: AlarmRule) => rule.deviceCode == d
  }

  /** Under each selected device stand its rules, in the order of the list, and under others nothing. */
  ghost predicate Grouped(byDevice: map<string, seq<AlarmRule>>, rules: seq<AlarmRule>, selected: set<string>) {
    forall d: string ::
      (if d in byDevice then byDevice[d] else []) == if d in selected then Filter(rules, IsRuleOf(d)) else []
  }

  method GroupRules(rules: seq<AlarmRule>, selected: set<string>) returns (byDevice: map<string, seq<AlarmRule>>)
    ensures Grouped(byDevice, rules, selected)
  {
    byDevice := map[];
    for i := 0 to |rules|
      invariant Grouped(byDevice, rules[..i], selected)
    {
      var rule := rules[i];
      assert rules[..i + 1] == rules[..i] + [rule];
      ghost var before := byDevice;
      if rule.deviceCode in selected {
        var list := if rule.deviceCode in byDevice then byDevice[rule.deviceCode] + [rule] else [rule];
        byDevice := byDevice[rule.deviceCode := list];
      }
      GroupedOneMore(before, byDevice, rules[..i], rule, selected);
    }
    assert rules[..|rules|] == rules;
  }

  lemma GroupedOneMore(
    before: map<string, seq<AlarmRule>>, after: map<string, seq<AlarmRule>>, rules: seq<AlarmRule>, rule: AlarmRule,
    selected: set<string>)
    requires Grouped(before, rules, selected)
    requires var d := rule.deviceCode;
             after == if d in selected then before[d := if d in before then before[d] + [rule] else [rule]] else before
    ensures Grouped(after, rules + [rule], selected)
  {
    hide Filter;
    forall d: string
      ensures (if d in after then after[d] else []) ==
              if d in selected then Filter(rules + [rule], IsRuleOf(d)) else []
    {
      FilterOneMore(rules, rule, IsRuleOf(d));
      assert Filter(rules, IsRuleOf(d)) + [] == Filter(rules, IsRuleOf(d));
      assert (if d in before then before[d] else []) == if d in selected then Filter(rules, IsRuleOf(d)) else [];
    }
  }

  /** A replay begins with empty memories, each variant under its own rules of the selected devices. */
  method CreateReplayCore(
    input: Input, baselineRules: seq<AlarmRule>, patchedRules: seq<AlarmRule>, maxEpisodes: nat) returns (core: Core)
    ensures fresh(core) && fresh(core.baseline) && fresh(core.patched) && core.Valid() && core.frames == []
    ensures core.input == input && core.maxEpisodes == maxEpisodes
    ensures Grouped(core.baseline.rules, baselineRules, input.selected)
    ensures Grouped(core.patched.rules, patchedRules, input.selected)
  {
    hide Grouped;
    var baseline := GroupRules(baselineRules, input.selected);
    var patched := GroupRules(patchedRules, input.selected);
    core := new Core(input, baseline, patched, maxEpisodes);
  }
}
