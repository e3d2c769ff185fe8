/** The strip of device modes under a chart: spans that cover the window, from a list of mode changes. */
module ModeSpans {
  import opened Wrappers
  import opened Sequences
  import opened AlarmEngine

  /** A change of mode; a time that does not parse is absent. */
  datatype ModeChange = ModeChange(at: Option<int>, mode: DeviceMode)

  datatype Change = Change(atMs: int, mode: DeviceMode)

  datatype Span = Span(mode: DeviceMode, fromMs: int, toMs: int)

  function Parsed(changes: seq<ModeChange>): seq<Change> {
    if changes == [] then []
    else
      var last := changes[|changes| - 1];
      Parsed(changes[..|changes| - 1]) + if last.at.Some? then [Change(last.at.value, last.mode)] else []
  }

  predicate Sooner(a: Change, b: Change) {
    a.atMs <= b.atMs
  }

  lemma SoonerIsTotal()
    ensures TotalPreorder(Sooner)
  {
  }

  // ---------------------------------------------------------------- the mode in force, without sorting

  /** The last change at or before t: the greatest time wins, and of equal times the later in the list. */
  function Latest(changes: seq<Change>, t: int): Option<Change> {
    if changes == [] then None
    else
      var last := changes[|changes| - 1];
      var before := Latest(changes[..|changes| - 1], t);
      if last.atMs <= t && (before.None? || before.value.atMs <= last.atMs) then Some(last) else before
  }

  function InForce(changes: seq<Change>, initial: DeviceMode, t: int): DeviceMode {
    var latest := Latest(changes, t);
    if latest.Some? then latest.value.mode else initial
  }

  /** What `Latest` finds, told by positions. */
  lemma {:induction false} LatestIs(changes: seq<Change>, t: int)
    ensures Latest(changes, t).None? <==> forall i :: 0 <= i < |changes| ==> changes[i].atMs > t
    ensures Latest(changes, t).Some? ==>
              exists i :: 0 <= i < |changes| && changes[i] == Latest(changes, t).value && changes[i].atMs <= t
                          && (forall j :: 0 <= j < |changes| && changes[j].atMs <= t ==>
                                changes[j].atMs < changes[i].atMs || (changes[j].atMs == changes[i].atMs && j <= i))
  {
    if changes != [] {
      var n := |changes| - 1;
      var front := changes[..n];
      LatestIs(front, t);
      assert forall i :: 0 <= i < n ==> front[i] == changes[i];
    }
  }

  lemma {:induction false} LatestAfterInsert(s: seq<Change>, x: Change, t: int)
    requires SortedBy(s, Sooner)
    ensures Latest(Insert(s, x, Sooner), t) == Latest(s + [x], t)
  {
    assert (s + [x])[..|s|] == s;
    if s != [] && !Sooner(s[|s| - 1], x) {
      var n := |s| - 1;
      LatestAfterInsert(s[..n], x, t);
      assert (s[..n] + [x])[..n] == s[..n];
      LatestIs(s[..n], t);
      var inserted := Insert(s[..n], x, Sooner);
      assert Insert(s, x, Sooner)[..|inserted|] == inserted;
    }
  }

  /** Sorting is stable, so it does not change which change is the latest. */
  lemma {:induction false} LatestAfterSort(s: seq<Change>, t: int)
    ensures Latest(SortBy(s, Sooner), t) == Latest(s, t)
  {
    if s != [] {
      var n := |s| - 1;
      LatestAfterSort(s[..n], t);
      SoonerIsTotal();
      SortSorts(s[..n], Sooner);
      LatestAfterInsert(SortBy(s[..n], Sooner), s[n], t);
      var sorted := SortBy(s[..n], Sooner);
      assert (sorted + [s[n]])[..|sorted|] == sorted;
    }
  }

  lemma LatestOfOneMore(sorted: seq<Change>, i: nat, t: int)
    requires SortedBy(sorted, Sooner) && i < |sorted|
    ensures Latest(sorted[..i + 1], t) == if sorted[i].atMs <= t then Some(sorted[i]) else Latest(sorted[..i], t)
  {
    assert sorted[..i + 1][..i] == sorted[..i];
    LatestIs(sorted[..i], t);
    assert forall k :: 0 <= k < i ==> Sooner(sorted[k], sorted[i]);
  }

  lemma {:induction false} LaterOnesDoNotCount(sorted: seq<Change>, i: nat, t: int)
    requires SortedBy(sorted, Sooner) && i <= |sorted| && forall k :: i <= k < |sorted| ==> sorted[k].atMs > t
    ensures Latest(sorted, t) == Latest(sorted[..i], t)
    decreases |sorted| - i
  {
    if i < |sorted| {
      LatestOfOneMore(sorted, i, t);
      LaterOnesDoNotCount(sorted, i + 1, t);
    } else {
      assert sorted[..i] == sorted;
    }
  }

  // ---------------------------------------------------------------- what the strip promises

  /** The spans begin at `from`, end at `to` and touch. */
  ghost predicate Tiles(spans: seq<Span>, from: int, to: int) {
    && spans != [] && spans[0].fromMs == from && spans[|spans| - 1].toMs == to
    && (forall i :: 0 <= i < |spans| ==> spans[i].fromMs <= spans[i].toMs)
    && (forall i :: 0 <= i < |spans| - 1 ==> spans[i].toMs == spans[i + 1].fromMs)
  }

  ghost predicate Alternate(spans: seq<Span>) {
    forall i :: 0 <= i < |spans| - 1 ==> spans[i].mode != spans[i + 1].mode
  }

  /** At every instant of a span its mode is the one in force. */
  ghost predicate Truthful(spans: seq<Span>, changes: seq<Change>, initial: DeviceMode) {
    forall i, t :: 0 <= i < |spans| && spans[i].fromMs <= t < spans[i].toMs ==>
      spans[i].mode == InForce(changes, initial, t)
  }

  /** Tiles leave no instant of the window out. */
  lemma {:induction false} EveryInstantIsCovered(spans: seq<Span>, from: int, to: int, t: int) returns (i: nat)
    requires Tiles(spans, from, to) && from <= t < to
    ensures i < |spans| && spans[i].fromMs <= t < spans[i].toMs
  {
    if t < spans[0].toMs {
      i := 0;
    } else {
      assert |spans| > 1;
      var rest := EveryInstantIsCovered(spans[1..], spans[0].toMs, to, t);
      i := rest + 1;
    }
  }

  // ---------------------------------------------------------------- flicker

  /** Change k of the sorted list is inside the window and does change the mode. */
  predicate Switches(sorted: seq<Change>, initial: DeviceMode, from: int, to: int, k: nat)
    requires k < |sorted|
  {
    from < sorted[k].atMs < to && sorted[k].mode != if k == 0 then initial else sorted[k - 1].mode
  }

  ghost predicate SameInstant(sorted: seq<Change>, initial: DeviceMode, from: int, to: int, k: nat, l: nat)
    requires k < |sorted| && l < |sorted|
  {
    Switches(sorted, initial, from, to, k) && Switches(sorted, initial, from, to, l) && sorted[k].atMs == sorted[l].atMs
  }

  /** Two changes of mode inside the window at one and the same instant, among the first n. */
  ghost predicate Flickers(sorted: seq<Change>, initial: DeviceMode, from: int, to: int, n: nat)
    requires n <= |sorted|
  {
    exists k, l :: 0 <= k < l < n && SameInstant(sorted, initial, from, to, k, l)
  }

  ghost predicate HasEmpty(spans: seq<Span>) {
    exists i :: 0 <= i < |spans| && spans[i].fromMs == spans[i].toMs
  }

  // ---------------------------------------------------------------- the loop

  /** The strip so far: closed spans, then one in `mode` since `startedMs` that is still open. */
  ghost predicate SoFar(
    spans: seq<Span>, mode: DeviceMode, startedMs: int, sorted: seq<Change>, i: nat, initial: DeviceMode, from: int,
    to: int)
    requires i <= |sorted|
  {
    && from <= startedMs < to
    && mode == (if i == 0 then initial else sorted[i - 1].mode)
    && (spans == [] <==> startedMs == from)
    && (spans != [] ==> Tiles(spans, from, startedMs) && spans[|spans| - 1].mode != mode)
    && Alternate(spans)
    && Truthful(spans, sorted[..i], initial)
    && (forall t :: startedMs <= t ==> mode == InForce(sorted[..i], initial, t))
  }

  /** Where the open span began: at the window's start, or with the last change of mode inside the window. */
  ghost predicate StartsAtSwitch(startedMs: int, sorted: seq<Change>, i: nat, initial: DeviceMode, from: int, to: int)
    requires i <= |sorted|
  {
    && (forall k :: 0 <= k < i && Switches(sorted, initial, from, to, k) ==> sorted[k].atMs <= startedMs)
    && (startedMs == from ||
        exists k :: 0 <= k < i && Switches(sorted, initial, from, to, k) && sorted[k].atMs == startedMs)
  }

  lemma InForceOfOneMore(sorted: seq<Change>, i: nat, initial: DeviceMode, t: int)
    requires SortedBy(sorted, Sooner) && i < |sorted|
    ensures InForce(sorted[..i + 1], initial, t) ==
            if sorted[i].atMs <= t then sorted[i].mode else InForce(sorted[..i], initial, t)
  {
    LatestOfOneMore(sorted, i, t);
  }

  lemma StillTruthful(spans: seq<Span>, sorted: seq<Change>, i: nat, initial: DeviceMode, from: int, startedMs: int)
    requires SortedBy(sorted, Sooner) && i < |sorted| && Truthful(spans, sorted[..i], initial)
    requires spans != [] ==> Tiles(spans, from, startedMs) && startedMs <= sorted[i].atMs
    ensures Truthful(spans, sorted[..i + 1], initial)
  {
    hide InForce;
    var prefix := sorted[..i + 1];
    forall k, t | 0 <= k < |spans| && spans[k].fromMs <= t < spans[k].toMs
      ensures spans[k].mode == InForce(prefix, initial, t)
    {
      InForceOfOneMore(sorted, i, initial, t);
      EndsBefore(spans, from, startedMs, k);
    }
  }

  lemma {:induction false} EndsBefore(spans: seq<Span>, from: int, to: int, k: nat)
    requires Tiles(spans, from, to) && k < |spans|
    ensures from <= spans[k].fromMs && spans[k].toMs <= to
  {
    var n := |spans| - 1;
    if n > 0 {
      if k < n {
        EndsBefore(spans[..n], from, spans[n].fromMs, k);
      } else {
        EndsBefore(spans[..n], from, spans[n].fromMs, n - 1);
      }
    }
  }

  /** A change at or before the start of the window, or one that keeps the mode, leaves the spans alone. */
  lemma NoNewSpan(
    spans: seq<Span>, mode: DeviceMode, startedMs: int, sorted: seq<Change>, i: nat, initial: DeviceMode, from: int,
    to: int)
    requires SortedBy(sorted, Sooner) && i < |sorted| && SoFar(spans, mode, startedMs, sorted, i, initial, from, to)
    requires StartsAtSwitch(startedMs, sorted, i, initial, from, to)
    requires sorted[i].atMs <= from || sorted[i].mode == mode
    ensures SoFar(spans, sorted[i].mode, startedMs, sorted, i + 1, initial, from, to)
    ensures StartsAtSwitch(startedMs, sorted, i + 1, initial, from, to)
  {
    hide InForce, Tiles, Truthful, Alternate, Switches;
    NotASwitch(mode, sorted, i, initial, from, to);
    OpenSpanIsOld(startedMs, sorted, i, initial, from, to);
    StillTruthful(spans, sorted, i, initial, from, startedMs);
    var prefix := sorted[..i + 1];
    forall t | startedMs <= t ensures sorted[i].mode == InForce(prefix, initial, t) {
      InForceOfOneMore(sorted, i, initial, t);
    }
  }

  lemma NotASwitch(mode: DeviceMode, sorted: seq<Change>, i: nat, initial: DeviceMode, from: int, to: int)
    requires i < |sorted| && mode == (if i == 0 then initial else sorted[i - 1].mode)
    requires sorted[i].atMs <= from || sorted[i].mode == mode
    ensures !Switches(sorted, initial, from, to, i)
  {
  }

  lemma OpenSpanIsOld(startedMs: int, sorted: seq<Change>, i: nat, initial: DeviceMode, from: int, to: int)
    requires SortedBy(sorted, Sooner) && i < |sorted| && StartsAtSwitch(startedMs, sorted, i, initial, from, to)
    ensures startedMs == from || from < startedMs <= sorted[i].atMs
  {
    forall k | 0 <= k < i ensures Sooner(sorted[k], sorted[i]) {
    }
  }

  /** A change of mode inside the window closes the open span. */
  lemma NewSpan(
    spans: seq<Span>, mode: DeviceMode, startedMs: int, sorted: seq<Change>, i: nat, initial: DeviceMode, from: int,
    to: int)
    requires SortedBy(sorted, Sooner) && i < |sorted| && SoFar(spans, mode, startedMs, sorted, i, initial, from, to)
    requires StartsAtSwitch(startedMs, sorted, i, initial, from, to)
    requires from < sorted[i].atMs < to && sorted[i].mode != mode
    ensures startedMs <= sorted[i].atMs && Switches(sorted, initial, from, to, i)
    ensures SoFar(spans + [Span(mode, startedMs, sorted[i].atMs)], sorted[i].mode, sorted[i].atMs, sorted, i + 1,
        initial, from, to)
    ensures StartsAtSwitch(sorted[i].atMs, sorted, i + 1, initial, from, to)
  {
    hide InForce, Tiles, Alternate, Switches;
    var at := sorted[i].atMs;
    var last := Span(mode, startedMs, at);
    ASwitch(mode, sorted, i, initial, from, to);
    OpenSpanIsOld(startedMs, sorted, i, initial, from, to);
    StillTruthful(spans, sorted, i, initial, from, startedMs);
    var prefix := sorted[..i + 1];
    forall t | startedMs <= t ensures InForce(prefix, initial, t) == if at <= t then sorted[i].mode else mode {
      InForceOfOneMore(sorted, i, initial, t);
    }
    forall k | 0 <= k < i ensures sorted[k].atMs <= at {
      assert Sooner(sorted[k], sorted[i]);
    }
    ExtendTiles(spans, from, startedMs, last);
    var next := spans + [last];
    forall k, t | 0 <= k < |next| && next[k].fromMs <= t < next[k].toMs
      ensures next[k].mode == InForce(prefix, initial, t)
    {
    }
  }

  lemma ASwitch(mode: DeviceMode, sorted: seq<Change>, i: nat, initial: DeviceMode, from: int, to: int)
    requires i < |sorted| && mode == (if i == 0 then initial else sorted[i - 1].mode)
    requires from < sorted[i].atMs < to && sorted[i].mode != mode
    ensures Switches(sorted, initial, from, to, i)
  {
  }

  lemma ExtendTiles(spans: seq<Span>, from: int, mid: int, last: Span)
    requires spans == [] ==> mid == from
    requires spans != [] ==> Tiles(spans, from, mid) && spans[|spans| - 1].mode != last.mode
    requires Alternate(spans) && last.fromMs == mid <= last.toMs
    ensures Tiles(spans + [last], from, last.toMs) && Alternate(spans + [last])
  {
  }

  /** The new span is empty exactly when an earlier change of mode had the same instant. */
  lemma EmptyIffSameInstant(startedMs: int, sorted: seq<Change>, i: nat, initial: DeviceMode, from: int, to: int)
    requires SortedBy(sorted, Sooner) && i < |sorted| && StartsAtSwitch(startedMs, sorted, i, initial, from, to)
    requires startedMs <= sorted[i].atMs && Switches(sorted, initial, from, to, i)
    ensures Flickers(sorted, initial, from, to, i + 1) <==>
            Flickers(sorted, initial, from, to, i) || startedMs == sorted[i].atMs
  {
    hide Switches;
    if k, l :| 0 <= k < l < i + 1 && SameInstant(sorted, initial, from, to, k, l) {
      assert l == i ==> sorted[k].atMs <= startedMs;
    }
    if k, l :| 0 <= k < l < i && SameInstant(sorted, initial, from, to, k, l) {
      assert SameInstant(sorted, initial, from, to, k, l);
    }
    if startedMs == sorted[i].atMs {
      SwitchIsInside(sorted, initial, from, to, i);
      var k :| 0 <= k < i && Switches(sorted, initial, from, to, k) && sorted[k].atMs == startedMs;
      assert SameInstant(sorted, initial, from, to, k, i);
    }
  }

  lemma SwitchIsInside(sorted: seq<Change>, initial: DeviceMode, from: int, to: int, k: nat)
    requires k < |sorted| && Switches(sorted, initial, from, to, k)
    ensures from < sorted[k].atMs < to
  {
  }

  lemma NoFlickerWithoutSwitch(sorted: seq<Change>, i: nat, initial: DeviceMode, from: int, to: int)
    requires i < |sorted| && !Switches(sorted, initial, from, to, i)
    ensures Flickers(sorted, initial, from, to, i + 1) <==> Flickers(sorted, initial, from, to, i)
  {
    hide Switches;
    if k, l :| 0 <= k < l < i + 1 && SameInstant(sorted, initial, from, to, k, l) {
      assert l < i;
    }
    if k, l :| 0 <= k < l < i && SameInstant(sorted, initial, from, to, k, l) {
      assert SameInstant(sorted, initial, from, to, k, l);
    }
  }

  lemma {:induction false} NothingAtOrAfter(sorted: seq<Change>, i: nat, initial: DeviceMode, from: int, to: int)
    requires SortedBy(sorted, Sooner) && i < |sorted| && sorted[i].atMs >= to
    ensures Flickers(sorted, initial, from, to, |sorted|) <==> Flickers(sorted, initial, from, to, i)
  {
    if k, l :| 0 <= k < l < |sorted| && SameInstant(sorted, initial, from, to, k, l) {
      assert i < l ==> Sooner(sorted[i], sorted[l]);
      assert l < i;
      assert SameInstant(sorted, initial, from, to, k, l);
    }
    if k, l :| 0 <= k < l < i && SameInstant(sorted, initial, from, to, k, l) {
      assert SameInstant(sorted, initial, from, to, k, l);
    }
  }

  lemma EmptyOfOneMore(spans: seq<Span>, last: Span)
    ensures HasEmpty(spans + [last]) <==> HasEmpty(spans) || last.fromMs == last.toMs
  {
    var more := spans + [last];
    if k :| 0 <= k < |spans| && spans[k].fromMs == spans[k].toMs {
      assert more[k] == spans[k];
    }
    if last.fromMs == last.toMs {
      assert more[|spans|] == last;
    }
  }

  /** Closing the open span at the window's end. */
  lemma Finish(
    spans: seq<Span>, mode: DeviceMode, startedMs: int, sorted: seq<Change>, i: nat, initial: DeviceMode, from: int,
    to: int)
    requires SortedBy(sorted, Sooner) && i <= |sorted| && SoFar(spans, mode, startedMs, sorted, i, initial, from, to)
    requires i < |sorted| ==> sorted[i].atMs >= to
    ensures var strip := spans + [Span(mode, startedMs, to)];
            && Tiles(strip, from, to) && Alternate(strip) && Truthful(strip, sorted, initial)
            && (HasEmpty(strip) <==> HasEmpty(spans))
            && (Flickers(sorted, initial, from, to, |sorted|) <==> Flickers(sorted, initial, from, to, i))
  {
    hide InForce, HasEmpty, Flickers;
    var strip := spans + [Span(mode, startedMs, to)];
    EmptyOfOneMore(spans, Span(mode, startedMs, to));
    if i < |sorted| {
      NothingAtOrAfter(sorted, i, initial, from, to);
    }
    forall k, t | 0 <= k < |strip| && strip[k].fromMs <= t < strip[k].toMs
      ensures strip[k].mode == InForce(sorted, initial, t)
    {
      if k < |spans| {
        EndsBefore(spans, from, startedMs, k);
      }
      InForceBeforeEnd(sorted, i, initial, to, t);
    }
  }

  lemma InForceBeforeEnd(sorted: seq<Change>, i: nat, initial: DeviceMode, to: int, t: int)
    requires SortedBy(sorted, Sooner) && i <= |sorted| && t < to
    requires i < |sorted| ==> sorted[i].atMs >= to
    ensures InForce(sorted, initial, t) == InForce(sorted[..i], initial, t)
  {
    forall k | i <= k < |sorted| ensures sorted[k].atMs > t {
      assert k == i || Sooner(sorted[i], sorted[k]);
    }
    LaterOnesDoNotCount(sorted, i, t);
  }

  lemma TruthfulUnsorted(spans: seq<Span>, changes: seq<Change>, initial: DeviceMode)
    requires Truthful(spans, SortBy(changes, Sooner), initial)
    ensures Truthful(spans, changes, initial)
  {
    forall k, t | 0 <= k < |spans| && spans[k].fromMs <= t < spans[k].toMs
      ensures spans[k].mode == InForce(changes, initial, t)
    {
      LatestAfterSort(changes, t);
      assert InForce(SortBy(changes, Sooner), initial, t) == InForce(changes, initial, t);
    }
  }

  /** All that the loop keeps true. */
  ghost predicate Strip(
    spans: seq<Span>, mode: DeviceMode, startedMs: int, sorted: seq<Change>, i: nat, initial: DeviceMode, from: int,
    to: int)
  {
    && i <= |sorted| && SortedBy(sorted, Sooner)
    && SoFar(spans, mode, startedMs, sorted, i, initial, from, to)
    && StartsAtSwitch(startedMs, sorted, i, initial, from, to)
    && (HasEmpty(spans) <==> Flickers(sorted, initial, from, to, i))
  }

  lemma Begin(changes: seq<Change>, initial: DeviceMode, from: int, to: int)
    requires from < to
    ensures Strip([], initial, from, SortBy(changes, Sooner), 0, initial, from, to)
  {
    SoonerIsTotal();
    SortSorts(changes, Sooner);
    var sorted := SortBy(changes, Sooner);
    assert sorted[..0] == [];
  }

  lemma PassOver(
    spans: seq<Span>, mode: DeviceMode, startedMs: int, sorted: seq<Change>, i: nat, initial: DeviceMode, from: int,
    to: int)
    requires Strip(spans, mode, startedMs, sorted, i, initial, from, to) && i < |sorted|
    requires sorted[i].atMs <= from || sorted[i].mode == mode
    ensures Strip(spans, sorted[i].mode, startedMs, sorted, i + 1, initial, from, to)
  {
    hide SortedBy, Tiles, Alternate, Truthful, InForce, Switches, HasEmpty, Flickers, StartsAtSwitch;
    NotASwitch(mode, sorted, i, initial, from, to);
    NoNewSpan(spans, mode, startedMs, sorted, i, initial, from, to);
    NoFlickerWithoutSwitch(sorted, i, initial, from, to);
  }

  lemma CloseSpan(
    spans: seq<Span>, mode: DeviceMode, startedMs: int, sorted: seq<Change>, i: nat, initial: DeviceMode, from: int,
    to: int)
    requires Strip(spans, mode, startedMs, sorted, i, initial, from, to) && i < |sorted|
    requires from < sorted[i].atMs < to && sorted[i].mode != mode
    ensures Strip(spans + [Span(mode, startedMs, sorted[i].atMs)], sorted[i].mode, sorted[i].atMs, sorted, i + 1,
        initial, from, to)
  {
    hide SortedBy, SoFar, Switches, HasEmpty, Flickers, StartsAtSwitch;
    NewSpan(spans, mode, startedMs, sorted, i, initial, from, to);
    EmptyIffSameInstant(startedMs, sorted, i, initial, from, to);
    EmptyOfOneMore(spans, Span(mode, startedMs, sorted[i].atMs));
  }

  lemma Conclude(
    spans: seq<Span>, mode: DeviceMode, startedMs: int, changes: seq<Change>, i: nat, initial: DeviceMode, from: int,
    to: int)
    requires var sorted := SortBy(changes, Sooner);
             Strip(spans, mode, startedMs, sorted, i, initial, from, to) && (i < |sorted| ==> sorted[i].atMs >= to)
    ensures var sorted := SortBy(changes, Sooner);
            var strip := spans + [Span(mode, startedMs, to)];
            && Tiles(strip, from, to) && Alternate(strip) && Truthful(strip, changes, initial)
            && (HasEmpty(strip) <==> Flickers(sorted, initial, from, to, |sorted|))
  {
    hide SortedBy, SoFar, HasEmpty, Flickers, StartsAtSwitch, Tiles, Alternate, Truthful;
    Finish(spans, mode, startedMs, SortBy(changes, Sooner), i, initial, from, to);
    TruthfulUnsorted(spans + [Span(mode, startedMs, to)], changes, initial);
  }

  /** The changes of a window as the loop sees them. */
  function Sorted(changes: seq<ModeChange>): seq<Change> {
    SortBy(Parsed(changes), Sooner)
  }

  /**
   The strip of a window. It covers the window without gaps, neighbours differ, and at every instant the span's
   mode is that of the last change at or before it; a span is empty only where the mode changed twice at once.
   */
  method BuildModeSpans(from: Option<int>, to: Option<int>, initial: DeviceMode, changes: seq<ModeChange>)
    returns (spans: seq<Span>)
    ensures spans == [] <==> from.None? || to.None? || to.value <= from.value
    ensures spans != [] ==>
              && Tiles(spans, from.value, to.value) && Alternate(spans)
              && Truthful(spans, Parsed(changes), initial)
              && (HasEmpty(spans) <==> Flickers(Sorted(changes), initial, from.value, to.value, |Sorted(changes)|))
  {
    if from.None? || to.None? || to.value <= from.value {
      return [];
    }
    hide Strip, Truthful, Tiles, Alternate, HasEmpty, Flickers;
    var fromMs, toMs := from.value, to.value;
    var sorted := SortBy(Parsed(changes), Sooner);
    spans := [];
    var mode, startedMs := initial, fromMs;
    Begin(Parsed(changes), initial, fromMs, toMs);
    var i := 0;
    while i < |sorted|
      invariant 0 <= i <= |sorted|
      invariant Strip(spans, mode, startedMs, sorted, i, initial, fromMs, toMs)
    {
      var change := sorted[i];
      if change.atMs <= fromMs {
        PassOver(spans, mode, startedMs, sorted, i, initial, fromMs, toMs);
        mode := change.mode;
        i := i + 1;
        continue;
      }
      if change.atMs >= toMs {
        break;
      }
      if change.mode == mode {
        PassOver(spans, mode, startedMs, sorted, i, initial, fromMs, toMs);
        i := i + 1;
        continue;
      }
      CloseSpan(spans, mode, startedMs, sorted, i, initial, fromMs, toMs);
      spans := spans + [Span(mode, startedMs, change.atMs)];
      mode := change.mode;
      startedMs := change.atMs;
      i := i + 1;
    }
    Conclude(spans, mode, startedMs, Parsed(changes), i, initial, fromMs, toMs);
    spans := spans + [Span(mode, startedMs, toMs)];
  }

  /** An input with an empty span: two changes with the same time inside the window. */
  lemma TwoChangesAtOnceFlicker()
    ensures var changes := [ModeChange(Some(5), Defrost), ModeChange(Some(5), Off)];
            Flickers(Sorted(changes), Cooling, 0, 10, |Sorted(changes)|)
  {
    var first, second := ModeChange(Some(5), Defrost), ModeChange(Some(5), Off);
    assert [first, second][..1] == [first] && [first][..0] == [];
    var sorted := [Change(5, Defrost), Change(5, Off)];
    assert Parsed([first]) == [Change(5, Defrost)];
    assert Parsed([first, second]) == sorted;
    assert sorted[..1] == [Change(5, Defrost)] && [Change(5, Defrost)][..0] == [];
    assert SortBy([Change(5, Defrost)], Sooner) == [Change(5, Defrost)];
    assert SortBy(sorted, Sooner) == sorted;
    assert SameInstant(sorted, Cooling, 0, 10, 0, 1);
  }
}
