/**
The table of alarm episodes: one row per episode under a unique text key, inserts that skip known keys and
clears that touch open rows only.
*/
module AlarmTable {
  import opened Wrappers
  import opened Sequences
  import opened AlarmEngine

  datatype Row = Row(
    deviceCode: string,
    metricKey: string,
    mode: DeviceMode,
    severity: Severity,
    boundary: Boundary,
    value: Option<real>,
    threshold: real,
    raisedAt: int,
    clearedAt: Option<int>,
    clearedValue: Option<real>)

  type Table = map<string, Row>

  /** Time stamps as text: a parameter, of which only injectivity and the missing separator are used. */
  type Stamp = int -> string

  const SEPARATOR := '|'

  ghost predicate GoodStamp(iso: Stamp) {
    && (forall a, b :: iso(a) == iso(b) ==> a == b)
    && (forall a :: SEPARATOR !in iso(a))
  }

  // ---------------------------------------------------------------- the episode key

  function EpisodeKey(iso: Stamp, deviceCode: string, metricKey: string, mode: DeviceMode, raisedAt: int): string {
    deviceCode + [SEPARATOR] + metricKey + [SEPARATOR] + ModeText(mode) + [SEPARATOR] + iso(raisedAt)
  }

  /** The key tells episodes apart even if a metric name contains the separator: device codes and modes never do. */
  lemma KeyIsInjective(
    iso: Stamp, device1: string, metric1: string, mode1: DeviceMode, at1: int,
    device2: string, metric2: string, mode2: DeviceMode, at2: int)
    requires GoodStamp(iso) && SEPARATOR !in device1 && SEPARATOR !in device2
    requires EpisodeKey(iso, device1, metric1, mode1, at1) == EpisodeKey(iso, device2, metric2, mode2, at2)
    ensures device1 == device2 && metric1 == metric2 && mode1 == mode2 && at1 == at2
  {
    hide ModeText;
    var tail1 := ModeText(mode1) + [SEPARATOR] + iso(at1);
    var tail2 := ModeText(mode2) + [SEPARATOR] + iso(at2);
    var key1 := EpisodeKey(iso, device1, metric1, mode1, at1);
    var key2 := EpisodeKey(iso, device2, metric2, mode2, at2);
    assert key1 == device1 + [SEPARATOR] + (metric1 + [SEPARATOR] + tail1);
    assert key2 == device2 + [SEPARATOR] + (metric2 + [SEPARATOR] + tail2);
    SplitAtFirst(SEPARATOR, device1, device2, metric1 + [SEPARATOR] + tail1, metric2 + [SEPARATOR] + tail2);
    assert metric1 + [SEPARATOR] + tail1 == (metric1 + [SEPARATOR] + ModeText(mode1)) + [SEPARATOR] + iso(at1);
    assert metric2 + [SEPARATOR] + tail2 == (metric2 + [SEPARATOR] + ModeText(mode2)) + [SEPARATOR] + iso(at2);
    SplitAtLast(SEPARATOR, metric1 + [SEPARATOR] + ModeText(mode1), metric2 + [SEPARATOR] + ModeText(mode2),
                iso(at1), iso(at2));
    ModeTextIsPlain(mode1);
    ModeTextIsPlain(mode2);
    SplitAtLast(SEPARATOR, metric1, metric2, ModeText(mode1), ModeText(mode2));
    ModeTextIsInjective(mode1, mode2);
  }

  function KeyOf(iso: Stamp, t: Transition): string {
    EpisodeKey(iso, t.deviceCode, t.metricKey, t.mode, t.raisedAt)
  }

  function KeyOfRow(iso: Stamp, row: Row): string {
    EpisodeKey(iso, row.deviceCode, row.metricKey, row.mode, row.raisedAt)
  }

  // ---------------------------------------------------------------- statements over the table

  function RowOf(t: Transition): Row {
    Row(t.deviceCode, t.metricKey, t.mode, t.severity, t.boundary, t.value, t.threshold, t.occurredAt, None, None)
  }

  function InsertRow(iso: Stamp, table: Table, t: Transition): Table {
    if KeyOf(iso, t) in table then table else table[KeyOf(iso, t) := RowOf(t)]
  }

  function ClearRow(iso: Stamp, table: Table, t: Transition): Table {
    var key := KeyOf(iso, t);
    if key in table && table[key].clearedAt.None?
    then table[key := table[key].(clearedAt := Some(t.occurredAt), clearedValue := t.value)]
    else table
  }

  function Apply(iso: Stamp, table: Table, t: Transition): Table {
    if t.kind.ToRaised? then InsertRow(iso, table, t) else ClearRow(iso, table, t)
  }

  /** Transitions written one by one, in the order the engine made them. */
  function ApplyAll(iso: Stamp, table: Table, ts: seq<Transition>): Table {
    if ts == [] then table else Apply(iso, ApplyAll(iso, table, ts[..|ts| - 1]), ts[|ts| - 1])
  }

  predicate IsRaise(t: Transition) {
    t.kind.ToRaised?
  }

  predicate IsClear(t: Transition) {
    t.kind.ToCleared?
  }

  /** Transitions written the way a batch is: all raises first, then all clears. */
  function ApplyBatch(iso: Stamp, table: Table, ts: seq<Transition>): Table {
    ApplyAll(iso, ApplyAll(iso, table, Filter(ts, IsRaise)), Filter(ts, IsClear))
  }

  lemma {:induction false} ApplyConcat(iso: Stamp, table: Table, a: seq<Transition>, b: seq<Transition>)
    ensures ApplyAll(iso, table, a + b) == ApplyAll(iso, ApplyAll(iso, table, a), b)
  {
    hide Apply;
    if b == [] {
      assert a + b == a;
    } else {
      assert (a + b)[..|a + b| - 1] == a + b[..|b| - 1];
      ApplyConcat(iso, table, a, b[..|b| - 1]);
    }
  }

  lemma ApplyOne(iso: Stamp, table: Table, t: Transition)
    ensures ApplyAll(iso, table, [t]) == Apply(iso, table, t)
  {
    assert [t][..0] == [];
  }

  /** The row tells the raise it came from, and the clear that closed it, if any. */
  ghost predicate RowTells(iso: Stamp, key: string, row: Row, ts: seq<Transition>) {
    && (exists t :: t in ts && IsRaise(t) && KeyOf(iso, t) == key && RaisedAs(row, t))
    && (row.clearedAt.Some? ==> exists c :: c in ts && IsClear(c) && KeyOf(iso, c) == key && ClosedAs(row, c))
  }

  predicate RaisedAs(row: Row, t: Transition) {
    && row.deviceCode == t.deviceCode && row.metricKey == t.metricKey && row.mode == t.mode
    && row.severity == t.severity && row.boundary == t.boundary && row.value == t.value
    && row.threshold == t.threshold && row.raisedAt == t.occurredAt
  }

  predicate ClosedAs(row: Row, c: Transition) {
    row.clearedAt == Some(c.occurredAt) && row.clearedValue == c.value
  }

  /** A table written from nothing holds no row and no clear that the transitions do not tell of. */
  lemma {:induction false} RowsComeFromTransitions(iso: Stamp, ts: seq<Transition>, key: string)
    requires key in ApplyAll(iso, map[], ts)
    ensures RowTells(iso, key, ApplyAll(iso, map[], ts)[key], ts)
  {
    hide KeyOf;
    var n := |ts| - 1;
    var front, last := ts[..n], ts[n];
    assert ts == front + [last];
    var before := ApplyAll(iso, map[], front);
    if key in before {
      RowsComeFromTransitions(iso, front, key);
      var t :| t in front && IsRaise(t) && KeyOf(iso, t) == key && RaisedAs(before[key], t);
      assert t in ts && RaisedAs(ApplyAll(iso, map[], ts)[key], t);
      if before[key].clearedAt.Some? {
        var c :| c in front && IsClear(c) && KeyOf(iso, c) == key && ClosedAs(before[key], c);
        assert c in ts && ClosedAs(ApplyAll(iso, map[], ts)[key], c);
      } else if ApplyAll(iso, map[], ts)[key].clearedAt.Some? {
        assert last in ts && ClosedAs(ApplyAll(iso, map[], ts)[key], last);
      }
    } else {
      assert last in ts && RaisedAs(ApplyAll(iso, map[], ts)[key], last);
    }
  }

  // ---------------------------------------------------------------- a batch is its transitions in order

  /** No transition clears an episode that a later one raises. */
  ghost predicate NoReraise(iso: Stamp, ts: seq<Transition>) {
    forall i, j :: 0 <= i < j < |ts| && IsClear(ts[i]) && IsRaise(ts[j]) ==> KeyOf(iso, ts[i]) != KeyOf(iso, ts[j])
  }

  lemma {:induction false} InsertBeforeClears(iso: Stamp, table: Table, t: Transition, clears: seq<Transition>)
    requires IsRaise(t)
    requires forall c :: c in clears ==> IsClear(c) && KeyOf(iso, c) != KeyOf(iso, t)
    ensures ApplyAll(iso, Apply(iso, table, t), clears) == Apply(iso, ApplyAll(iso, table, clears), t)
  {
    hide KeyOf;
    if clears != [] {
      var n := |clears| - 1;
      InsertBeforeClears(iso, table, t, clears[..n]);
      assert clears[n] in clears;
      var before := ApplyAll(iso, table, clears[..n]);
      assert ClearRow(iso, InsertRow(iso, before, t), clears[n]) == InsertRow(iso, ClearRow(iso, before, clears[n]), t);
    }
  }

  lemma {:induction false} BatchIsInOrder(iso: Stamp, table: Table, ts: seq<Transition>)
    requires NoReraise(iso, ts)
    ensures ApplyBatch(iso, table, ts) == ApplyAll(iso, table, ts)
  {
    hide Apply, KeyOf, ApplyAll, Filter;
    if ts == [] {
      NothingToApply(iso, table);
    } else {
      var n := |ts| - 1;
      var front, last := ts[..n], ts[n];
      assert ts == front + [last];
      BatchIsInOrder(iso, table, front);
      FilterAppend(front, [last], IsRaise);
      FilterAppend(front, [last], IsClear);
      FilterOfOne(last);
      ApplyConcat(iso, table, front, [last]);
      ApplyOne(iso, ApplyAll(iso, table, front), last);
      var raises, clears := Filter(front, IsRaise), Filter(front, IsClear);
      var mid := ApplyAll(iso, table, raises);
      if last.kind.ToRaised? {
        ApplyConcat(iso, table, raises, [last]);
        ApplyOne(iso, mid, last);
        FilterMembers(front, IsClear);
        forall c | c in clears ensures IsClear(c) && KeyOf(iso, c) != KeyOf(iso, last) {
          var i :| 0 <= i < |front| && front[i] == c;
          assert ts[i] == c;
        }
        InsertBeforeClears(iso, mid, last, clears);
        assert clears + [] == clears;
      } else {
        ApplyConcat(iso, mid, clears, [last]);
        ApplyOne(iso, ApplyAll(iso, mid, clears), last);
        assert raises + [] == raises;
      }
    }
  }

  lemma NothingToApply(iso: Stamp, table: Table)
    ensures ApplyBatch(iso, table, []) == ApplyAll(iso, table, []) == table
  {
  }

  lemma FilterOfOne(t: Transition)
    ensures Filter([t], IsRaise) == if IsRaise(t) then [t] else []
    ensures Filter([t], IsClear) == if IsClear(t) then [t] else []
  {
  }

  // ---------------------------------------------------------------- what can no longer change anything

  /** The statement of this transition has had its effect: running it again changes nothing. */
  predicate Settled(iso: Stamp, table: Table, t: Transition) {
    var key := KeyOf(iso, t);
    key in table && (t.kind.ToCleared? ==> table[key].clearedAt.Some?)
  }

  lemma SettledStays(iso: Stamp, table: Table, t: Transition, other: Transition)
    requires Settled(iso, table, t)
    ensures Apply(iso, table, t) == table
    ensures Settled(iso, Apply(iso, table, other), t)
  {
    hide KeyOf;
  }

  lemma {:induction false} SettledStaysThrough(iso: Stamp, table: Table, t: Transition, ts: seq<Transition>)
    requires Settled(iso, table, t)
    ensures Settled(iso, ApplyAll(iso, table, ts), t)
  {
    hide Apply, Settled;
    if ts != [] {
      var n := |ts| - 1;
      SettledStaysThrough(iso, table, t, ts[..n]);
      SettledStays(iso, ApplyAll(iso, table, ts[..n]), t, ts[n]);
    }
  }

  lemma {:induction false} SettledChangesNothing(iso: Stamp, table: Table, ts: seq<Transition>)
    requires forall t :: t in ts ==> Settled(iso, table, t)
    ensures ApplyAll(iso, table, ts) == table
    ensures ApplyBatch(iso, table, ts) == table
  {
    SettledInOrder(iso, table, ts);
    FilterMembers(ts, IsRaise);
    FilterMembers(ts, IsClear);
    SettledInOrder(iso, table, Filter(ts, IsRaise));
    SettledInOrder(iso, table, Filter(ts, IsClear));
  }

  lemma {:induction false} SettledInOrder(iso: Stamp, table: Table, ts: seq<Transition>)
    requires forall t :: t in ts ==> Settled(iso, table, t)
    ensures ApplyAll(iso, table, ts) == table
  {
    hide Apply, Settled;
    if ts != [] {
      var n := |ts| - 1;
      SettledInOrder(iso, table, ts[..n]);
      SettledStays(iso, table, ts[n], ts[n]);
    }
  }

  // ---------------------------------------------------------------- the table as an object

  /** The rows a list of statements adds or touches are counted the way the database counts them. */
  class EpisodeTable {
    const iso: Stamp
    var rows: Table

    constructor (iso: Stamp)
      ensures this.iso == iso && rows == map[]
    {
      this.iso := iso;
      rows := map[];
    }

    method InsertAlarmEvents(batch: seq<Transition>) returns (inserted: nat)
      requires forall t :: t in batch ==> IsRaise(t)
      modifies this
      ensures rows == ApplyAll(iso, old(rows), batch)
      ensures inserted == |rows| - |old(rows)|
    {
      inserted := 0;
      for i := 0 to |batch|
        invariant rows == ApplyAll(iso, old(rows), batch[..i])
        invariant inserted == |rows| - |old(rows)|
      {
        assert batch[..i + 1][..i] == batch[..i];
        assert batch[i] in batch;
        var key := KeyOf(iso, batch[i]);
        if key !in rows {
          ghost var before := rows;
          rows := rows[key := RowOf(batch[i])];
          assert rows.Keys == before.Keys + {key};
          assert |rows| == |rows.Keys| && |before| == |before.Keys|;
          inserted := inserted + 1;
        }
      }
      assert batch[..|batch|] == batch;
    }

    method ClearAlarmEvents(batch: seq<Transition>) returns (cleared: nat)
      requires forall t :: t in batch ==> IsClear(t)
      modifies this
      ensures rows == ApplyAll(iso, old(rows), batch)
      ensures cleared + OpenRows(rows) == OpenRows(old(rows))
    {
      cleared := 0;
      for i := 0 to |batch|
        invariant rows == ApplyAll(iso, old(rows), batch[..i])
        invariant cleared + OpenRows(rows) == OpenRows(old(rows))
      {
        assert batch[..i + 1][..i] == batch[..i];
        assert batch[i] in batch;
        var key := KeyOf(iso, batch[i]);
        if key in rows && rows[key].clearedAt.None? {
          ghost var before := rows;
          rows := rows[key := rows[key].(clearedAt := Some(batch[i].occurredAt), clearedValue := batch[i].value)];
          assert OpenKeys(before) == OpenKeys(rows) + {key};
          cleared := cleared + 1;
        }
      }
      assert batch[..|batch|] == batch;
    }

    /** The open episodes of the named devices, oldest first; `keys` names the row of each. */
    method LoadOpenAlarmEpisodes(deviceCodes: Option<set<string>>)
      returns (episodes: seq<Row>, ghost keys: seq<string>)
      ensures Distinct(keys) && forall k :: k in keys <==> k in rows && Loads(rows[k], deviceCodes)
      ensures |episodes| == |keys| && forall i :: 0 <= i < |keys| ==> keys[i] in keys && episodes[i] == rows[keys[i]]
      ensures forall i, j :: 0 <= i < j < |episodes| ==> episodes[i].raisedAt <= episodes[j].raisedAt
    {
      var found: seq<(string, Row)> := [];
      var left := rows.Keys;
      while left != {}
        invariant left <= rows.Keys
        invariant forall p :: p in found <==> p.0 in rows && p.0 !in left && p.1 == rows[p.0] && Loads(p.1, deviceCodes)
        invariant Distinct(found)
        decreases left
      {
        var key :| key in left;
        if Loads(rows[key], deviceCodes) {
          assert forall p :: p in found ==> p.0 != key;
          found := found + [(key, rows[key])];
        }
        left := left - {key};
      }
      OlderIsTotal();
      SortSorts(found, Older);
      var sorted := SortBy(found, Older);
      DistinctSurvivesPermutation(found, sorted);
      episodes := seq(|sorted|, i requires 0 <= i < |sorted| => sorted[i].1);
      keys := seq(|sorted|, i requires 0 <= i < |sorted| => sorted[i].0);
      SortedOut(rows, deviceCodes, sorted, episodes, keys);
    }
  }

  /** Rows under their keys, each once and oldest first, taken apart. */
  lemma SortedOut(
    rows: Table, deviceCodes: Option<set<string>>, sorted: seq<(string, Row)>, episodes: seq<Row>, keys: seq<string>)
    requires forall p :: p in sorted <==> p.0 in rows && p.1 == rows[p.0] && Loads(p.1, deviceCodes)
    requires Distinct(sorted) && SortedBy(sorted, Older) && |episodes| == |keys| == |sorted|
    requires forall i :: 0 <= i < |sorted| ==> episodes[i] == sorted[i].1 && keys[i] == sorted[i].0
    ensures Distinct(keys) && forall k :: k in keys <==> k in rows && Loads(rows[k], deviceCodes)
    ensures forall i :: 0 <= i < |keys| ==> keys[i] in keys && episodes[i] == rows[keys[i]]
    ensures forall i, j :: 0 <= i < j < |episodes| ==> episodes[i].raisedAt <= episodes[j].raisedAt
  {
    hide Loads;
    forall i | 0 <= i < |keys| ensures keys[i] in rows && sorted[i] == (keys[i], rows[keys[i]]) {
      assert sorted[i] in sorted;
    }
    forall k | k in rows && Loads(rows[k], deviceCodes) ensures k in keys {
      assert (k, rows[k]) in sorted;
      var i :| 0 <= i < |sorted| && sorted[i] == (k, rows[k]);
      assert keys[i] == k;
    }
    forall k | k in keys ensures k in rows && Loads(rows[k], deviceCodes) {
      var i :| 0 <= i < |keys| && keys[i] == k;
      assert sorted[i] in sorted;
    }
    forall i, j | 0 <= i < j < |episodes| ensures episodes[i].raisedAt <= episodes[j].raisedAt {
      assert Older(sorted[i], sorted[j]);
    }
  }

  ghost function OpenKeys(rows: Table): set<string> {
    set key | key in rows && rows[key].clearedAt.None?
  }

  ghost function OpenRows(rows: Table): nat {
    |OpenKeys(rows)|
  }

  predicate Older(a: (string, Row), b: (string, Row)) {
    a.1.raisedAt <= b.1.raisedAt
  }

  lemma OlderIsTotal()
    ensures TotalPreorder(Older)
  {
  }

  predicate Loads(row: Row, deviceCodes: Option<set<string>>) {
    row.clearedAt.None? && (deviceCodes.Some? ==> row.deviceCode in deviceCodes.value)
  }
}
