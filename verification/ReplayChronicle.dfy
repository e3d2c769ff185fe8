/**
What a replay makes of its frames: every device is run by the engine alone, over its accepted frames and under the
variant's own rules, and the variant's episodes tell exactly the raises and clears of those runs.
*/
module ReplayChronicle {
  import opened Wrappers
  import opened Sequences
  import opened AlarmEngine
  import opened AlarmRuns
  import opened AlarmTable
  import opened AlarmAgreement
  import opened ReplayPairing
  import opened ReplayCore

  type RulesByDevice = map<string, seq<AlarmRule>>

  // ---------------------------------------------------------------- the run of one device

  /** The frames of the device that count: in the window, readable, and each later than the one before. */
  function AcceptedOf(input: Input, frames: seq<RawFrame>, d: string): seq<RawFrame> {
    if frames == [] then []
    else
      var before := AcceptedOf(input, frames[..|frames| - 1], d);
      var raw := frames[|frames| - 1];
      if raw.deviceCode == d && d in input.selected && d in input.refs && input.from <= raw.atMs < input.to
         && raw.outcome.Some? && (before == [] || before[|before| - 1].atMs < raw.atMs)
      then before + [raw]
      else before
  }

  /** The frame as a polling cycle under the device's rules of the variant, or under none. */
  function Ruled(raw: RawFrame, rules: RulesByDevice): Cycle
    requires raw.outcome.Some?
  {
    Cycle(raw.deviceCode, raw.outcome.value.mode, raw.outcome.value.metrics,
          if raw.deviceCode in rules then rules[raw.deviceCode] else [], raw.atMs)
  }

  function CyclesOf(accepted: seq<RawFrame>, rules: RulesByDevice): seq<Cycle>
    requires forall raw :: raw in accepted ==> raw.outcome.Some?
  {
    seq(|accepted|, i requires 0 <= i < |accepted| => Ruled(accepted[i], rules))
  }

  lemma {:induction false} AcceptedAreReadable(input: Input, frames: seq<RawFrame>, d: string)
    ensures forall raw :: raw in AcceptedOf(input, frames, d) ==> raw.outcome.Some? && raw.deviceCode == d
  {
    if frames != [] {
      AcceptedAreReadable(input, frames[..|frames| - 1], d);
    }
  }

  /** The engine alone, on one device. */
  ghost function Replayed(input: Input, rules: RulesByDevice, frames: seq<RawFrame>, d: string)
    : (DeviceState, seq<Transition>)
  {
    AcceptedAreReadable(input, frames, d);
    DeviceRun(CyclesOf(AcceptedOf(input, frames, d), rules), map[])
  }

  /** All transitions of a variant, in the order of the frames. */
  ghost function WholeLog(input: Input, variant: Variant, rules: RulesByDevice, frames: seq<RawFrame>)
    : seq<Transition>
  {
    if frames == [] then []
    else
      var front, raw := frames[..|frames| - 1], frames[|frames| - 1];
      var before := RunOf(input, variant, rules, front);
      WholeLog(input, variant, rules, front)
      + if Accepts(input, before.lastAccepted, raw) then MadeBy(before.v.alarms, RuledBy(CycleOf(raw), rules)) else []
  }

  function OfDevice(d: string): Transition -> bool {
    (t: Transition) => t.deviceCode == d
  }

  /** The run knows which frame of the device it accepted last. */
  lemma {:induction false} LastAcceptedOf(
    input: Input, variant: Variant, rules: RulesByDevice, frames: seq<RawFrame>, d: string)
    ensures var last := RunOf(input, variant, rules, frames).lastAccepted;
            var accepted := AcceptedOf(input, frames, d);
            && (d in last <==> accepted != [])
            && (accepted != [] ==> last[d] == accepted[|accepted| - 1].atMs)
  {
    hide AfterCycle;
    if frames != [] {
      LastAcceptedOf(input, variant, rules, frames[..|frames| - 1], d);
    }
  }

  lemma AcceptedOneMore(input: Input, variant: Variant, rules: RulesByDevice, frames: seq<RawFrame>, d: string)
    requires frames != []
    ensures var front, raw := frames[..|frames| - 1], frames[|frames| - 1];
            var accepts := Accepts(input, RunOf(input, variant, rules, front).lastAccepted, raw);
            AcceptedOf(input, frames, d) ==
            AcceptedOf(input, front, d) + if accepts && raw.deviceCode == d then [raw] else []
  {
    hide RunOf;
    LastAcceptedOf(input, variant, rules, frames[..|frames| - 1], d);
  }

  lemma RuledIsRuledBy(raw: RawFrame, rules: RulesByDevice)
    requires raw.outcome.Some?
    ensures RuledBy(CycleOf(raw), rules) == Ruled(raw, rules)
  {
  }

  lemma CyclesOneMore(accepted: seq<RawFrame>, raw: RawFrame, rules: RulesByDevice)
    requires raw.outcome.Some? && forall r :: r in accepted ==> r.outcome.Some?
    ensures CyclesOf(accepted + [raw], rules) == CyclesOf(accepted, rules) + [Ruled(raw, rules)]
  {
  }

  lemma RunOneMore(cycles: seq<Cycle>, cycle: Cycle, start: DeviceState)
    ensures var before := DeviceRun(cycles, start);
            var keys := KeysOfCycle(cycle, before.0);
            DeviceRun(cycles + [cycle], start) ==
            (StatesAfter(cycle, before.0, keys), before.1 + TransitionsAfter(cycle, before.0, keys))
  {
    assert (cycles + [cycle])[..|cycles|] == cycles;
  }

  lemma {:induction false} AllOfDevice(ts: seq<Transition>, c: string, d: string)
    requires forall t :: t in ts ==> t.deviceCode == c
    ensures Filter(ts, OfDevice(d)) == if c == d then ts else []
  {
    if c == d {
      FilterAll(ts, OfDevice(d));
    } else {
      FilterNone(ts, OfDevice(d));
    }
  }

  /** One more accepted frame, seen by one device: its own frame is one more cycle of it, another's is nothing. */
  lemma FrameOfADevice(
    memory: Memory, log: seq<Transition>, accepted: seq<RawFrame>, raw: RawFrame, rules: RulesByDevice, d: string)
    requires raw.outcome.Some? && forall r :: r in accepted ==> r.outcome.Some?
    requires DeviceRun(CyclesOf(accepted, rules), map[]) == (DeviceOf(memory, d), Filter(log, OfDevice(d)))
    ensures var cycle := Ruled(raw, rules);
            var taken := if raw.deviceCode == d then accepted + [raw] else accepted;
            DeviceRun(CyclesOf(taken, rules), map[]) ==
            (DeviceOf(AfterFrame(memory, cycle), d), Filter(log + MadeBy(memory, cycle), OfDevice(d)))
  {
    hide KeysOfCycle, StatesAfter, TransitionsAfter, Filter, CyclesOf, Ruled, DeviceRun;
    var cycle := Ruled(raw, rules);
    RuledDevice(raw, rules);
    var state, made := DeviceOf(memory, cycle.deviceCode), MadeBy(memory, cycle);
    TransitionsAreOfTheDevice(cycle, state, KeysOfCycle(cycle, state));
    FilterAppend(log, made, OfDevice(d));
    AllOfDevice(made, cycle.deviceCode, d);
    if cycle.deviceCode == d {
      CyclesOneMore(accepted, raw, rules);
      RunOneMore(CyclesOf(accepted, rules), cycle, map[]);
    } else {
      assert Filter(log, OfDevice(d)) + [] == Filter(log, OfDevice(d));
    }
  }

  /**
   Devices do not disturb each other, and nothing is dropped or shared between variants: each device's memory, and its
   share of the variant's log, are those of the engine alone on its accepted frames under the variant's rules.
   */
  lemma {:induction false} DevicesAreReplayed(
    input: Input, variant: Variant, rules: RulesByDevice, frames: seq<RawFrame>, d: string)
    ensures DeviceOf(RunOf(input, variant, rules, frames).v.alarms, d) == Replayed(input, rules, frames, d).0
    ensures Filter(WholeLog(input, variant, rules, frames), OfDevice(d)) == Replayed(input, rules, frames, d).1
  {
    hide Filter, AllEntered, Accepts, AcceptedOf, CyclesOf, Ruled, DeviceRun, MadeBy, AfterFrame, RuledBy, DeviceOf;
    AcceptedAreReadable(input, frames, d);
    if frames == [] {
      NothingReplayed(input, rules, d);
    } else {
      var front, raw := frames[..|frames| - 1], frames[|frames| - 1];
      var before := RunOf(input, variant, rules, front);
      var log, accepted := WholeLog(input, variant, rules, front), AcceptedOf(input, front, d);
      DevicesAreReplayed(input, variant, rules, front, d);
      AcceptedAreReadable(input, front, d);
      AcceptedOneMore(input, variant, rules, frames, d);
      assert accepted + [] == accepted && log + [] == log;
      if Accepts(input, before.lastAccepted, raw) {
        AcceptsReadable(input, before.lastAccepted, raw);
        RuledIsRuledBy(raw, rules);
        FrameOfADevice(before.v.alarms, log, accepted, raw, rules, d);
      }
    }
  }

  lemma NothingReplayed(input: Input, rules: RulesByDevice, d: string)
    ensures Replayed(input, rules, [], d) == (map[], []) && DeviceOf(map[], d) == map[]
    ensures Filter<Transition>([], OfDevice(d)) == []
  {
  }

  lemma AcceptsReadable(input: Input, lastAccepted: map<string, int>, raw: RawFrame)
    requires Accepts(input, lastAccepted, raw)
    ensures raw.outcome.Some? && raw.deviceCode in input.refs && input.from <= raw.atMs < input.to
    ensures raw.deviceCode in lastAccepted ==> lastAccepted[raw.deviceCode] < raw.atMs
  {
  }

  lemma RuledDevice(raw: RawFrame, rules: RulesByDevice)
    requires raw.outcome.Some?
    ensures Ruled(raw, rules).deviceCode == raw.deviceCode && Ruled(raw, rules).nowMs == raw.atMs
  {
  }

  // ---------------------------------------------------------------- episodes tell the log

  /** The clear that ends what the raise began. */
  predicate Ends(raise: Transition, clear: Transition) {
    && IsClear(clear) && clear.deviceCode == raise.deviceCode && clear.metricKey == raise.metricKey
    && clear.raisedAt == raise.occurredAt
  }

  /** The episode is the raise's, and closed when the log says so. */
  ghost predicate TellsRaise(refs: Refs, variant: Variant, e: Episode, raise: Transition, log: seq<Transition>) {
    && raise.deviceCode in refs && raise.raisedAt == raise.occurredAt
    && e.variant == variant && e.key == SlotKey(refs[raise.deviceCode], raise.metricKey, raise.mode)
    && e.raisedAt == raise.occurredAt
    && match e.clearedAt
       case Some(at) => exists c :: c in log && Ends(raise, c) && c.occurredAt == at
       case None => forall c :: c in log ==> !Ends(raise, c)
  }

  function Raises(log: seq<Transition>): seq<Transition> {
    Filter(log, IsRaise)
  }

  ghost predicate HasRaise(raises: seq<Transition>, clear: Transition) {
    exists r :: r in raises && Ends(r, clear)
  }

  /** One episode for each raise of the log, in its order, and every clear of the log ends one. */
  ghost predicate Chronicle(refs: Refs, variant: Variant, episodes: seq<Episode>, log: seq<Transition>) {
    && |episodes| == |Raises(log)|
    && (forall i :: 0 <= i < |episodes| ==> TellsRaise(refs, variant, episodes[i], Raises(log)[i], log))
    && (forall c :: c in log && IsClear(c) ==> HasRaise(Raises(log), c))
  }

  lemma RaisesOneMore(log: seq<Transition>, t: Transition)
    ensures Raises(log + [t]) == Raises(log) + if IsRaise(t) then [t] else []
  {
    assert (log + [t])[..|log|] == log;
  }

  lemma RaiseChronicled(
    refs: Refs, variant: Variant, book: Book, log: seq<Transition>, t: Transition)
    requires Chronicle(refs, variant, book.episodes, log) && GoodRefs(refs) && t.deviceCode in refs
    requires IsRaise(t) && t.raisedAt == t.occurredAt
    requires Younger(book.episodes, refs[t.deviceCode], t.metricKey, t.raisedAt)
    ensures Chronicle(refs, variant, Entered(book, variant, refs[t.deviceCode], t).episodes, log + [t])
  {
    hide Ends, Raises, GoodRefs;
    var more := log + [t];
    var after := Entered(book, variant, refs[t.deviceCode], t).episodes;
    RaisesOneMore(log, t);
    forall c | c in log ensures !Ends(t, c) {
      ClearIsOlder(refs, variant, book.episodes, log, t, c);
    }
    forall raise ensures !Ends(raise, t) {
      ClearsEnd(raise, t);
    }
    forall i | 0 <= i < |after| ensures TellsRaise(refs, variant, after[i], Raises(more)[i], more) {
      if i < |book.episodes| {
        StillTells(refs, variant, after[i], Raises(log)[i], log, t);
      }
    }
    forall c | c in more && IsClear(c) ensures HasRaise(Raises(more), c) {
      assert HasRaise(Raises(log), c);
      var r :| r in Raises(log) && Ends(r, c);
      assert r in Raises(more);
    }
  }

  lemma ClearsEnd(a: Transition, b: Transition)
    ensures Ends(a, b) ==> IsClear(b)
  {
  }

  /** A clear of the log ends an episode that is older than a raise of now. */
  lemma ClearIsOlder(
    refs: Refs, variant: Variant, episodes: seq<Episode>, log: seq<Transition>, t: Transition, c: Transition)
    requires Chronicle(refs, variant, episodes, log) && t.deviceCode in refs && t.raisedAt == t.occurredAt
    requires Younger(episodes, refs[t.deviceCode], t.metricKey, t.raisedAt) && c in log
    ensures !Ends(t, c)
  {
    hide Raises;
    if IsClear(c) {
      assert HasRaise(Raises(log), c);
      var r :| r in Raises(log) && Ends(r, c);
      var i :| 0 <= i < |Raises(log)| && Raises(log)[i] == r;
      assert TellsRaise(refs, variant, episodes[i], r, log);
    }
  }

  lemma StillTells(
    refs: Refs, variant: Variant, e: Episode, raise: Transition, log: seq<Transition>, t: Transition)
    requires TellsRaise(refs, variant, e, raise, log) && (e.clearedAt.None? ==> !Ends(raise, t))
    ensures TellsRaise(refs, variant, e, raise, log + [t])
  {
    hide Ends;
    if e.clearedAt.Some? {
      var c :| c in log && Ends(raise, c) && c.occurredAt == e.clearedAt.value;
      assert c in log + [t];
    }
  }

  lemma ClearChronicled(
    refs: Refs, variant: Variant, book: Book, log: seq<Transition>, t: Transition)
    requires Chronicle(refs, variant, book.episodes, log) && GoodRefs(refs) && t.deviceCode in refs && IsClear(t)
    requires OneRowEach(book.episodes) && OfVariantOnly(book.episodes, variant)
    requires KeyOfTransition(t) in book.open
    requires Points(refs, book.episodes, book.open[KeyOfTransition(t)], KeyOfTransition(t))
    ensures Chronicle(refs, variant, Entered(book, variant, refs[t.deviceCode], t).episodes, log + [t])
  {
    hide Raises, Ends;
    var more, index := log + [t], book.open[KeyOfTransition(t)];
    var after := Entered(book, variant, refs[t.deviceCode], t).episodes;
    RaisesOneMore(log, t);
    var raise := Raises(log)[index];
    assert TellsRaise(refs, variant, book.episodes[index], raise, log);
    PointedIsEnded(refs, variant, book.episodes[index], raise, log, t);
    forall i | 0 <= i < |after| ensures TellsRaise(refs, variant, after[i], Raises(more)[i], more) {
      assert TellsRaise(refs, variant, book.episodes[i], Raises(log)[i], log);
      if i == index {
        assert t in more && Ends(raise, t);
      } else {
        assert i < index || index < i;
        EndsOnlyOne(refs, variant, book.episodes[i], Raises(log)[i], book.episodes[index], raise, log, t);
        StillTells(refs, variant, after[i], Raises(log)[i], log, t);
      }
    }
    forall c | c in more && IsClear(c) ensures HasRaise(Raises(more), c) {
      if c in log {
        assert HasRaise(Raises(log), c);
      } else {
        assert raise in Raises(more) && Ends(raise, c);
      }
    }
  }

  lemma PointedIsEnded(
    refs: Refs, variant: Variant, e: Episode, raise: Transition, log: seq<Transition>, t: Transition)
    requires GoodRefs(refs) && TellsRaise(refs, variant, e, raise, log) && IsClear(t) && t.deviceCode in refs
    requires e.key.deviceId == refs[t.deviceCode] && e.key.metricKey == t.metricKey && e.raisedAt == t.raisedAt
    ensures Ends(raise, t)
  {
  }

  lemma EndsOnlyOne(
    refs: Refs, variant: Variant, a: Episode, raiseA: Transition, b: Episode, raiseB: Transition,
    log: seq<Transition>, t: Transition)
    requires TellsRaise(refs, variant, a, raiseA, log) && TellsRaise(refs, variant, b, raiseB, log)
    requires !SameRow(a, b) || !SameRow(b, a)
    ensures !(Ends(raiseA, t) && Ends(raiseB, t))
  {
  }

  lemma SlotChronicled(
    refs: Refs, variant: Variant, from: int, to: int, memory: Memory, book: Book, cycle: Cycle, m: string,
    log: seq<Transition>)
    requires GoodRefs(refs) && Sane(refs, variant, from, to, memory, book) && cycle.deviceCode in refs
    requires from <= cycle.nowMs < to && Younger(book.episodes, refs[cycle.deviceCode], m, cycle.nowMs)
    requires Chronicle(refs, variant, book.episodes, log)
    ensures var d := cycle.deviceCode;
            var step := StepMetric(cycle, m, SlotState(memory, d, m));
            Chronicle(refs, variant, AllEntered(book, variant, refs[d], AsSeq(step.1)).episodes, log + AsSeq(step.1))
  {
    hide StepMetric, SlotState, SetSlot, GoodRefs, Entered, Younger, Chronicle, InWindow, OneRowEach, OfVariantOnly;
    var d := cycle.deviceCode;
    var prev := SlotState(memory, d, m);
    var step := StepMetric(cycle, m, prev);
    StepCases(cycle, m, prev);
    if step.1.None? {
      assert log + [] == log;
    } else {
      var t := step.1.value;
      assert [t][..0] == [];
      assert AllEntered(book, variant, refs[d], [t]) == Entered(book, variant, refs[d], t);
      if IsRaise(t) {
        RaiseChronicled(refs, variant, book, log, t);
      } else {
        assert SlotTells(memory, KeyOfTransition(t));
        ClearChronicled(refs, variant, book, log, t);
      }
    }
  }

  lemma {:induction false} FrameChronicled(
    refs: Refs, variant: Variant, from: int, to: int, memory: Memory, book: Book, cycle: Cycle, keys: seq<string>,
    log: seq<Transition>)
    requires GoodRefs(refs) && Sane(refs, variant, from, to, memory, book) && cycle.deviceCode in refs && Distinct(keys)
    requires from <= cycle.nowMs < to
    requires forall m :: m in keys ==> Younger(book.episodes, refs[cycle.deviceCode], m, cycle.nowMs)
    requires Chronicle(refs, variant, book.episodes, log)
    ensures var ts := TransitionsAfter(cycle, DeviceOf(memory, cycle.deviceCode), keys);
            Chronicle(refs, variant, AllEntered(book, variant, refs[cycle.deviceCode], ts).episodes, log + ts)
  {
    hide Sane, StepMetric, SlotState, PrevOf, DeviceOf, SetSlot, AllEntered, GoodRefs, OnlyAdds, Younger, Chronicle;
    var d := cycle.deviceCode;
    if keys == [] {
      NothingEntered(book, variant, refs[d], cycle.nowMs);
      assert log + [] == log;
    } else {
      var n := |keys| - 1;
      var front, m := keys[..n], keys[n];
      assert keys == front + [m] && m !in front;
      var ts := TransitionsAfter(cycle, DeviceOf(memory, d), front);
      var mid := AllEntered(book, variant, refs[d], ts);
      var step := StepMetric(cycle, m, SlotState(memory, d, m));
      FrameChronicled(refs, variant, from, to, memory, book, cycle, front, log);
      FrameEnters(refs, variant, from, to, memory, book, cycle, front);
      SlotsThrough(memory, cycle, front);
      StillYounger(book.episodes, mid.episodes, refs[d], cycle.nowMs, front, m);
      SlotChronicled(refs, variant, from, to, Through(memory, cycle, front), mid, cycle, m, log + ts);
      EnteredInParts(book, variant, refs[d], ts, AsSeq(step.1));
      SlotIsPrev(memory, d, m);
      assert log + ts + AsSeq(step.1) == log + (ts + AsSeq(step.1));
    }
  }

  /** The episodes of a variant are exactly the raises of its log, each closed by the clear that ends it. */
  lemma {:induction false} EpisodesTellTheLog(
    input: Input, variant: Variant, rules: RulesByDevice, frames: seq<RawFrame>)
    requires GoodRefs(input.refs)
    ensures Chronicle(input.refs, variant, RunOf(input, variant, rules, frames).v.book.episodes,
                      WholeLog(input, variant, rules, frames))
  {
    hide Sane, GoodRefs, StatesAfter, TransitionsAfter, KeysOfCycle, AllEntered, SlotState, Chronicle, Accepts, RuledBy;
    if frames == [] {
      NothingChronicled(input.refs, variant);
    } else {
      var front, raw := frames[..|frames| - 1], frames[|frames| - 1];
      var before := RunOf(input, variant, rules, front);
      var log := WholeLog(input, variant, rules, front);
      EpisodesTellTheLog(input, variant, rules, front);
      assert log + [] == log;
      if Accepts(input, before.lastAccepted, raw) {
        AcceptsReadable(input, before.lastAccepted, raw);
        RunStaysSane(input, variant, rules, front);
        var cycle := RuledBy(CycleOf(raw), rules);
        RuledIsRuledBy(raw, rules);
        RuledDevice(raw, rules);
        var state := DeviceOf(before.v.alarms, raw.deviceCode);
        KeysAreDistinct(cycle, state);
        DatedIsYounger(input.refs, before.lastAccepted, before.v.book.episodes, raw.deviceCode, raw.atMs);
        FrameChronicled(input.refs, variant, input.from, input.to, before.v.alarms, before.v.book, cycle,
                        KeysOfCycle(cycle, state), log);
      }
    }
  }

  lemma DatedIsYounger(refs: Refs, lastAccepted: map<string, int>, episodes: seq<Episode>, d: string, now: int)
    requires Dated(refs, lastAccepted, episodes) && d in refs && (d in lastAccepted ==> lastAccepted[d] < now)
    ensures forall m :: Younger(episodes, refs[d], m, now)
  {
  }

  lemma NothingChronicled(refs: Refs, variant: Variant)
    ensures Chronicle(refs, variant, [], [])
  {
  }

  // ---------------------------------------------------------------- the episodes of one device

  function OfDeviceId(id: int): Episode -> bool {
    (e: Episode) => e.key.deviceId == id
  }

  /** The episodes of a device are those of the raises of its share of the log. */
  lemma {:induction false} ShareIsTold(
    refs: Refs, variant: Variant, d: string, episodes: seq<Episode>, raises: seq<Transition>, log: seq<Transition>)
    requires GoodRefs(refs) && d in refs && |episodes| == |raises|
    requires forall i :: 0 <= i < |episodes| ==> TellsRaise(refs, variant, episodes[i], raises[i], log)
    ensures var (mine, share) := (Filter(episodes, OfDeviceId(refs[d])), Filter(raises, OfDevice(d)));
            |mine| == |share| && forall i :: 0 <= i < |mine| ==> TellsRaise(refs, variant, mine[i], share[i], log)
  {
    if episodes != [] {
      var n := |episodes| - 1;
      ShareIsTold(refs, variant, d, episodes[..n], raises[..n], log);
      hide TellsRaise;
      SameDevice(refs, variant, d, episodes[n], raises[n], log);
    }
  }

  lemma SameDevice(refs: Refs, variant: Variant, d: string, e: Episode, raise: Transition, log: seq<Transition>)
    requires GoodRefs(refs) && d in refs && TellsRaise(refs, variant, e, raise, log)
    ensures e.key.deviceId == refs[d] <==> raise.deviceCode == d
  {
  }

  lemma ToldByShare(refs: Refs, variant: Variant, d: string, e: Episode, raise: Transition, log: seq<Transition>)
    requires raise.deviceCode == d && TellsRaise(refs, variant, e, raise, log)
    ensures TellsRaise(refs, variant, e, raise, Filter(log, OfDevice(d)))
  {
    FilterMembers(log, OfDevice(d));
  }

  /**
   The rows of a device, in each variant, are one for each raise of the engine's own run on the device's accepted
   frames under that variant's rules: with its metric, mode and raise time, and closed at the time of the clear that
   ends it exactly if the run has one.
   */
  lemma RowsOfADevice(input: Input, variant: Variant, rules: RulesByDevice, frames: seq<RawFrame>, d: string)
    requires GoodRefs(input.refs) && d in input.refs
    ensures var log := Replayed(input, rules, frames, d).1;
            var rows := Filter(RunOf(input, variant, rules, frames).v.book.episodes, OfDeviceId(input.refs[d]));
            && |rows| == |Raises(log)|
            && forall i :: 0 <= i < |rows| ==> TellsRaise(input.refs, variant, rows[i], Raises(log)[i], log)
  {
    hide RunOf, Filter, TellsRaise, GoodRefs, WholeLog, Replayed;
    var log := WholeLog(input, variant, rules, frames);
    var episodes := RunOf(input, variant, rules, frames).v.book.episodes;
    EpisodesTellTheLog(input, variant, rules, frames);
    DevicesAreReplayed(input, variant, rules, frames, d);
    ShareIsTold(input.refs, variant, d, episodes, Raises(log), log);
    FiltersCommute(log, IsRaise, OfDevice(d));
    var rows, share := Filter(episodes, OfDeviceId(input.refs[d])), Filter(Raises(log), OfDevice(d));
    FilterMembers(Raises(log), OfDevice(d));
    forall i | 0 <= i < |rows|
      ensures TellsRaise(input.refs, variant, rows[i], share[i], Filter(log, OfDevice(d)))
    {
      assert share[i] in share;
      ToldByShare(input.refs, variant, d, rows[i], share[i], log);
    }
  }

  /** With the rules grouped as at the start, a cycle of a selected device is ruled by its own rules of the list. */
  lemma RuledByItsOwn(raw: RawFrame, byDevice: RulesByDevice, rules: seq<AlarmRule>, selected: set<string>)
    requires raw.outcome.Some? && Grouped(byDevice, rules, selected) && raw.deviceCode in selected
    ensures Ruled(raw, byDevice).rules == Filter(rules, IsRuleOf(raw.deviceCode))
  {
    var d := raw.deviceCode;
    assert (if d in byDevice then byDevice[d] else []) == Filter(rules, IsRuleOf(d));
  }
}
