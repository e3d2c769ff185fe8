/**
The summary of a replay: which episodes of one variant have a counterpart in the other. The query looks at
running windows over the episodes in order of their start; the promise is about intersecting intervals.
*/
module ReplayPairing {
  import opened Wrappers
  import opened Sequences
  import opened AlarmEngine

  datatype Variant = Baseline | Patched

  /** The line of the summary an episode belongs to: device, metric and mode. */
  datatype SlotKey = SlotKey(deviceId: int, metricKey: string, mode: DeviceMode)

  datatype Episode = Episode(variant: Variant, key: SlotKey, raisedAt: int, clearedAt: Option<int>)

  datatype SummaryRow = SummaryRow(baseline: nat, patched: nat, added: nat, removed: nat)

  function Other(v: Variant): Variant {
    if v.Baseline? then Patched else Baseline
  }

  /** An open episode lasts to the end of the run's window. */
  function EndedAt(e: Episode, toTs: int): int {
    e.clearedAt.GetOr(toTs)
  }

  /** Order of the windows: by start, then by the variant's name. */
  predicate Before(a: Episode, b: Episode) {
    a.raisedAt < b.raisedAt || (a.raisedAt == b.raisedAt && (a.variant.Baseline? || b.variant.Patched?))
  }

  lemma BeforeIsTotal()
    ensures TotalPreorder(Before)
  {
  }

  function OfKey(key: SlotKey): Episode -> bool {
    (e: Episode) => e.key == key
  }

  function Partition(rows: seq<Episode>, key: SlotKey): seq<Episode> {
    SortBy(Filter(rows, OfKey(key)), Before)
  }

  // ---------------------------------------------------------------- the windows

  /** max(ended_at) over the rows of one variant, absent when there are none. */
  function MaxEnd(s: seq<Episode>, v: Variant, toTs: int): Option<int> {
    if s == [] then None
    else
      var last := s[|s| - 1];
      var rest := MaxEnd(s[..|s| - 1], v, toTs);
      if last.variant != v then rest
      else if rest.Some? && rest.value > EndedAt(last, toTs) then rest
      else Some(EndedAt(last, toTs))
  }

  /** min(raised_at) over the rows of one variant, absent when there are none. */
  function MinStart(s: seq<Episode>, v: Variant): Option<int> {
    if s == [] then None
    else
      var rest := MinStart(s[1..], v);
      if s[0].variant != v then rest
      else if rest.Some? && rest.value < s[0].raisedAt then rest
      else Some(s[0].raisedAt)
  }

  /** The query's verdict on row i of a partition in window order. */
  predicate WindowPaired(s: seq<Episode>, i: nat, toTs: int)
    requires i < |s|
  {
    var endedEarlier := MaxEnd(s[..i + 1], Other(s[i].variant), toTs);
    var raisedLater := MinStart(s[i..], Other(s[i].variant));
    || (endedEarlier.Some? && endedEarlier.value >= s[i].raisedAt)
    || (raisedLater.Some? && raisedLater.value <= EndedAt(s[i], toTs))
  }

  function CountRows(s: seq<Episode>, n: nat, v: Variant, unpairedOnly: bool, toTs: int): nat
    requires n <= |s|
  {
    if n == 0 then 0
    else
      CountRows(s, n - 1, v, unpairedOnly, toTs)
      + if s[n - 1].variant == v && !(unpairedOnly && WindowPaired(s, n - 1, toTs)) then 1 else 0
  }

  /** One line of the summary as the query computes it. */
  function Summary(rows: seq<Episode>, key: SlotKey, toTs: int): SummaryRow {
    var s := Partition(rows, key);
    SummaryRow(
      CountRows(s, |s|, Baseline, false, toTs),
      CountRows(s, |s|, Patched, false, toTs),
      CountRows(s, |s|, Patched, true, toTs),
      CountRows(s, |s|, Baseline, true, toTs))
  }

  // ---------------------------------------------------------------- the promise

  /** The episode is not over before `t`; one without a clear is over at the end of the window. */
  predicate NotOverBefore(e: Episode, t: int, toTs: int) {
    match e.clearedAt
    case Some(clearedAt) => t <= clearedAt
    case None => t <= toTs
  }

  /** Closed intervals, so touching counts. */
  predicate Intersect(a: Episode, b: Episode, toTs: int) {
    NotOverBefore(b, a.raisedAt, toTs) && NotOverBefore(a, b.raisedAt, toTs)
  }

  ghost predicate LastsAt(e: Episode, t: int, toTs: int) {
    e.raisedAt <= t && NotOverBefore(e, t, toTs)
  }

  /** Two episodes that do not end before they start intersect exactly if they share an instant. */
  lemma IntersectIffTheyShareAnInstant(a: Episode, b: Episode, toTs: int)
    requires NotOverBefore(a, a.raisedAt, toTs) && NotOverBefore(b, b.raisedAt, toTs)
    ensures Intersect(a, b, toTs) <==> exists t :: LastsAt(a, t, toTs) && LastsAt(b, t, toTs)
  {
    var later := if a.raisedAt < b.raisedAt then b.raisedAt else a.raisedAt;
    assert Intersect(a, b, toTs) ==> LastsAt(a, later, toTs) && LastsAt(b, later, toTs);
  }

  predicate Partners(a: Episode, b: Episode, toTs: int) {
    a.key == b.key && b.variant == Other(a.variant) && Intersect(a, b, toTs)
  }

  predicate HasPartner(e: Episode, rows: seq<Episode>, toTs: int) {
    exists o :: o in rows && Partners(e, o, toTs)
  }

  /** No episode ends before it starts; an open one started before the end of the window. */
  predicate WellTimed(rows: seq<Episode>, toTs: int) {
    forall e :: e in rows ==> NotOverBefore(e, e.raisedAt, toTs)
  }

  function OfVariant(key: SlotKey, v: Variant): Episode -> bool {
    (e: Episode) => e.key == key && e.variant == v
  }

  function Unpaired(rows: seq<Episode>, key: SlotKey, v: Variant, toTs: int): Episode -> bool {
    (e: Episode) => e.key == key && e.variant == v && !HasPartner(e, rows, toTs)
  }

  function Count(rows: seq<Episode>, what: Episode -> bool): nat {
    |Filter(rows, what)|
  }

  // ---------------------------------------------------------------- what the windows say

  lemma {:induction false} MaxEndReaches(s: seq<Episode>, v: Variant, toTs: int, bound: int)
    ensures MaxEnd(s, v, toTs).Some? && MaxEnd(s, v, toTs).value >= bound <==>
            exists k :: 0 <= k < |s| && s[k].variant == v && EndedAt(s[k], toTs) >= bound
  {
    if s != [] {
      var n := |s| - 1;
      MaxEndReaches(s[..n], v, toTs, bound);
      assert forall k :: 0 <= k < n ==> s[..n][k] == s[k];
    }
  }

  lemma {:induction false} MinStartReaches(s: seq<Episode>, v: Variant, bound: int)
    ensures MinStart(s, v).Some? && MinStart(s, v).value <= bound <==>
            exists k :: 0 <= k < |s| && s[k].variant == v && s[k].raisedAt <= bound
  {
    if s != [] {
      MinStartReaches(s[1..], v, bound);
      assert forall k :: 0 <= k < |s| - 1 ==> s[1..][k] == s[k + 1];
    }
  }

  /** What the two windows see from row i, for any rows at all. */
  predicate Sees(s: seq<Episode>, i: nat, j: nat, toTs: int)
    requires i < |s| && j < |s|
  {
    && s[j].variant == Other(s[i].variant)
    && ((j <= i && EndedAt(s[j], toTs) >= s[i].raisedAt) || (i <= j && s[j].raisedAt <= EndedAt(s[i], toTs)))
  }

  lemma WindowsSee(s: seq<Episode>, i: nat, toTs: int)
    requires i < |s|
    ensures WindowPaired(s, i, toTs) <==> exists j :: 0 <= j < |s| && Sees(s, i, j, toTs)
  {
    var v := Other(s[i].variant);
    MaxEndReaches(s[..i + 1], v, toTs, s[i].raisedAt);
    MinStartReaches(s[i..], v, EndedAt(s[i], toTs));
    if j :| 0 <= j < |s| && Sees(s, i, j, toTs) {
      if j <= i && EndedAt(s[j], toTs) >= s[i].raisedAt {
        assert s[..i + 1][j] == s[j];
      } else {
        assert s[i..][j - i] == s[j];
      }
    }
    if WindowPaired(s, i, toTs) {
      var upTo := s[..i + 1];
      if k :| 0 <= k < |upTo| && upTo[k].variant == v && EndedAt(upTo[k], toTs) >= s[i].raisedAt {
        assert Sees(s, i, k, toTs);
      } else {
        var k :| 0 <= k < |s[i..]| && s[i..][k].variant == v && s[i..][k].raisedAt <= EndedAt(s[i], toTs);
        assert Sees(s, i, i + k, toTs);
      }
    }
  }

  /**
   The windows take row j for a partner of row i that it does not meet: one of the two ends before it starts, and
   before the other starts.
   */
  predicate Misleads(s: seq<Episode>, i: nat, j: nat, toTs: int)
    requires i < |s| && j < |s|
  {
    && s[j].variant == Other(s[i].variant)
    && ((j < i && !NotOverBefore(s[i], s[j].raisedAt, toTs) && NotOverBefore(s[j], s[i].raisedAt, toTs))
        || (i < j && !NotOverBefore(s[j], s[i].raisedAt, toTs) && NotOverBefore(s[i], s[j].raisedAt, toTs)))
  }

  /** What row i sees in row j is a partner or a mistake, for any two rows of a partition. */
  lemma SeesPartnerOrMistake(rows: seq<Episode>, key: SlotKey, i: nat, j: nat, toTs: int)
    requires i < |Partition(rows, key)| && j < |Partition(rows, key)|
    ensures var s := Partition(rows, key);
            Sees(s, i, j, toTs) <==> Partners(s[i], s[j], toTs) || Misleads(s, i, j, toTs)
  {
    var s := Partition(rows, key);
    PartitionFacts(rows, key);
    assert s[i] in s && s[j] in s;
    assert i < j ==> Before(s[i], s[j]);
    assert j < i ==> Before(s[j], s[i]);
  }

  lemma PartnersAreRows(rows: seq<Episode>, key: SlotKey, i: nat, toTs: int)
    requires i < |Partition(rows, key)|
    ensures var s := Partition(rows, key);
            HasPartner(s[i], rows, toTs) <==> exists j :: 0 <= j < |s| && Partners(s[i], s[j], toTs)
  {
    hide Intersect, Partition;
    var s := Partition(rows, key);
    PartitionFacts(rows, key);
    assert s[i] in s;
    if o :| o in rows && Partners(s[i], o, toTs) {
      assert o in s;
      var j :| 0 <= j < |s| && s[j] == o;
    }
    if j :| 0 <= j < |s| && Partners(s[i], s[j], toTs) {
      assert s[j] in s;
    }
  }

  /**
   For any rows at all: the windows never miss a partner, and their verdict on a row is right exactly when it has
   one or no row misleads them.
   */
  lemma WindowsAreRightIffNotMisled(rows: seq<Episode>, key: SlotKey, i: nat, toTs: int)
    requires i < |Partition(rows, key)|
    ensures var s := Partition(rows, key);
            && (HasPartner(s[i], rows, toTs) ==> WindowPaired(s, i, toTs))
            && ((WindowPaired(s, i, toTs) <==> HasPartner(s[i], rows, toTs)) <==>
                HasPartner(s[i], rows, toTs) || !exists j :: 0 <= j < |s| && Misleads(s, i, j, toTs))
  {
    hide Sees, Partners, Misleads, WindowPaired, HasPartner, Partition;
    var s := Partition(rows, key);
    WindowsSee(s, i, toTs);
    PartnersAreRows(rows, key, i, toTs);
    forall j | 0 <= j < |s|
      ensures Sees(s, i, j, toTs) <==> Partners(s[i], s[j], toTs) || Misleads(s, i, j, toTs)
    {
      SeesPartnerOrMistake(rows, key, i, j, toTs);
    }
  }

  /** No row misleads among episodes that do not end before they start. */
  lemma WellTimedNeverMislead(rows: seq<Episode>, key: SlotKey, i: nat, j: nat, toTs: int)
    requires WellTimed(rows, toTs) && i < |Partition(rows, key)| && j < |Partition(rows, key)|
    ensures !Misleads(Partition(rows, key), i, j, toTs)
  {
    var s := Partition(rows, key);
    PartitionFacts(rows, key);
    assert s[i] in s && s[j] in s;
    assert i < j ==> Before(s[i], s[j]);
    assert j < i ==> Before(s[j], s[i]);
  }

  /** So for them the windows find a partner exactly when some episode of the other variant intersects. */
  lemma WindowsFindPartners(rows: seq<Episode>, key: SlotKey, i: nat, toTs: int)
    requires WellTimed(rows, toTs) && i < |Partition(rows, key)|
    ensures var s := Partition(rows, key);
            WindowPaired(s, i, toTs) <==> HasPartner(s[i], rows, toTs)
  {
    hide Misleads, WindowPaired, HasPartner, Partition, WellTimed;
    var s := Partition(rows, key);
    WindowsAreRightIffNotMisled(rows, key, i, toTs);
    forall j | 0 <= j < |s| ensures !Misleads(s, i, j, toTs) {
      WellTimedNeverMislead(rows, key, i, j, toTs);
    }
  }

  lemma PartitionFacts(rows: seq<Episode>, key: SlotKey)
    ensures var s := Partition(rows, key);
            && SortedBy(s, Before)
            && multiset(s) == multiset(Filter(rows, OfKey(key)))
            && (forall e :: e in s <==> e in rows && e.key == key)
  {
    BeforeIsTotal();
    SortSorts(Filter(rows, OfKey(key)), Before);
    FilterMembers(rows, OfKey(key));
  }

  // ---------------------------------------------------------------- counting

  lemma {:induction false} CountByMultiset(a: seq<Episode>, b: seq<Episode>, what: Episode -> bool)
    requires multiset(a) == multiset(b)
    ensures Count(a, what) == Count(b, what)
    decreases |a|
  {
    if a == [] {
      SameElements(a, b);
    } else {
      var n := |a| - 1;
      var x := a[n];
      SameElements(a, b);
      assert a == a[..n] + [x] && x in b;
      var k :| 0 <= k < |b| && b[k] == x;
      var rest := b[..k] + b[k + 1..];
      assert b == b[..k] + [x] + b[k + 1..];
      assert multiset(b) == multiset(rest) + multiset{x};
      CancelLast(multiset(a[..n]), multiset(rest), x);
      CountByMultiset(a[..n], rest, what);
      FilterAppend(b[..k], [x], what);
      FilterAppend(b[..k] + [x], b[k + 1..], what);
      FilterAppend(b[..k], b[k + 1..], what);
      FilterAppend(a[..n], [x], what);
      assert Filter([x], what) == if what(x) then [x] else [];
    }
  }

  lemma {:induction false} CountOfAgreeing(a: seq<Episode>, p: Episode -> bool, q: Episode -> bool)
    requires forall e :: e in a ==> p(e) == q(e)
    ensures Count(a, p) == Count(a, q)
  {
    if a != [] {
      assert a == a[..|a| - 1] + [a[|a| - 1]];
      CountOfAgreeing(a[..|a| - 1], p, q);
    }
  }

  /** Rows outside the key do not count, so counting in the partition is counting in the table. */
  lemma {:induction false} CountInKey(rows: seq<Episode>, key: SlotKey, what: Episode -> bool)
    requires forall e :: what(e) ==> e.key == key
    ensures Count(Filter(rows, OfKey(key)), what) == Count(rows, what)
  {
    if rows != [] {
      var n := |rows| - 1;
      CountInKey(rows[..n], key, what);
      var kept := Filter(rows[..n], OfKey(key));
      var last := if OfKey(key)(rows[n]) then [rows[n]] else [];
      FilterAppend(kept, last, what);
      assert Filter([rows[n]], what) == if what(rows[n]) then [rows[n]] else [];
    }
  }

  lemma {:induction false} CountRowsCounts(
    s: seq<Episode>, n: nat, v: Variant, unpairedOnly: bool, toTs: int, what: Episode -> bool)
    requires n <= |s|
    requires forall i :: 0 <= i < n ==>
               (what(s[i]) <==> s[i].variant == v && !(unpairedOnly && WindowPaired(s, i, toTs)))
    ensures CountRows(s, n, v, unpairedOnly, toTs) == Count(s[..n], what)
  {
    if n > 0 {
      CountRowsCounts(s, n - 1, v, unpairedOnly, toTs, what);
      assert s[..n][..n - 1] == s[..n - 1];
    }
  }

  lemma SummaryCounts(rows: seq<Episode>, key: SlotKey, v: Variant, unpairedOnly: bool, toTs: int)
    requires WellTimed(rows, toTs)
    ensures var s := Partition(rows, key);
            CountRows(s, |s|, v, unpairedOnly, toTs) ==
            if unpairedOnly then Count(rows, Unpaired(rows, key, v, toTs)) else Count(rows, OfVariant(key, v))
  {
    var s := Partition(rows, key);
    PartitionFacts(rows, key);
    var what := if unpairedOnly then Unpaired(rows, key, v, toTs) else OfVariant(key, v);
    forall i | 0 <= i < |s|
      ensures what(s[i]) <==> s[i].variant == v && !(unpairedOnly && WindowPaired(s, i, toTs))
    {
      WindowsFindPartners(rows, key, i, toTs);
      assert s[i] in s;
    }
    CountRowsCounts(s, |s|, v, unpairedOnly, toTs, what);
    assert s[..|s|] == s;
    CountByMultiset(s, Filter(rows, OfKey(key)), what);
    CountInKey(rows, key, what);
  }

  /**
   The summary refines the simple definition: both counts are the episodes of the variants, added and removed
   are those among them whose closed interval meets no episode of the other variant.
   */
  lemma SummaryIsBruteForce(rows: seq<Episode>, key: SlotKey, toTs: int)
    requires WellTimed(rows, toTs)
    ensures Summary(rows, key, toTs) ==
            SummaryRow(Count(rows, OfVariant(key, Baseline)), Count(rows, OfVariant(key, Patched)),
                       Count(rows, Unpaired(rows, key, Patched, toTs)),
                       Count(rows, Unpaired(rows, key, Baseline, toTs)))
  {
    SummaryCounts(rows, key, Baseline, false, toTs);
    SummaryCounts(rows, key, Patched, false, toTs);
    SummaryCounts(rows, key, Patched, true, toTs);
    SummaryCounts(rows, key, Baseline, true, toTs);
  }

  // ---------------------------------------------------------------- consequences

  function Swap(e: Episode): Episode {
    e.(variant := Other(e.variant))
  }

  function Swapped(rows: seq<Episode>): seq<Episode> {
    seq(|rows|, i requires 0 <= i < |rows| => Swap(rows[i]))
  }

  lemma SwappedMembers(rows: seq<Episode>)
    ensures forall e :: e in rows <==> Swap(e) in Swapped(rows)
    ensures forall e :: e in Swapped(rows) ==> Swap(e) in rows && Swap(Swap(e)) == e
  {
    forall e ensures e in rows <==> Swap(e) in Swapped(rows) {
      if e in rows {
        var i :| 0 <= i < |rows| && rows[i] == e;
        assert Swapped(rows)[i] == Swap(e);
      }
      if Swap(e) in Swapped(rows) {
        var i :| 0 <= i < |rows| && Swapped(rows)[i] == Swap(e);
        assert rows[i] == e;
      }
    }
    forall e | e in Swapped(rows) ensures Swap(e) in rows && Swap(Swap(e)) == e {
      var i :| 0 <= i < |rows| && Swapped(rows)[i] == e;
      assert Swap(e) == rows[i];
    }
  }

  /** Both variants hold the same intervals, so every episode has its twin. */
  ghost predicate SameVariants(rows: seq<Episode>) {
    forall e :: e in rows ==> Swap(e) in rows
  }

  lemma SameVariantsNothingChanged(rows: seq<Episode>, key: SlotKey, toTs: int)
    requires WellTimed(rows, toTs) && SameVariants(rows)
    ensures Summary(rows, key, toTs).added == 0 && Summary(rows, key, toTs).removed == 0
  {
    SummaryIsBruteForce(rows, key, toTs);
    forall e, v | e in rows ensures !Unpaired(rows, key, v, toTs)(e) {
      assert Partners(e, Swap(e), toTs);
    }
    FilterNone(rows, Unpaired(rows, key, Patched, toTs));
    FilterNone(rows, Unpaired(rows, key, Baseline, toTs));
  }

  lemma {:induction false} CountSwapped(rows: seq<Episode>, p: Episode -> bool, q: Episode -> bool)
    requires forall e :: e in rows ==> q(Swap(e)) == p(e)
    ensures Count(Swapped(rows), q) == Count(rows, p)
  {
    if rows != [] {
      var n := |rows| - 1;
      CountSwapped(rows[..n], p, q);
      assert rows == rows[..n] + [rows[n]];
      assert Swapped(rows)[..n] == Swapped(rows[..n]);
    }
  }

  /** Exchanging the two variants exchanges the two counts and exchanges added and removed. */
  lemma SwapExchangesAddedAndRemoved(rows: seq<Episode>, key: SlotKey, toTs: int)
    requires WellTimed(rows, toTs)
    ensures var s := Summary(rows, key, toTs);
            Summary(Swapped(rows), key, toTs) == SummaryRow(s.patched, s.baseline, s.removed, s.added)
  {
    var swapped := Swapped(rows);
    SwappedMembers(rows);
    assert WellTimed(swapped, toTs);
    SummaryIsBruteForce(rows, key, toTs);
    SummaryIsBruteForce(swapped, key, toTs);
    forall e | e in rows ensures HasPartner(Swap(e), swapped, toTs) == HasPartner(e, rows, toTs) {
      if o :| o in rows && Partners(e, o, toTs) {
        assert Swap(o) in swapped && Partners(Swap(e), Swap(o), toTs);
      }
      if o :| o in swapped && Partners(Swap(e), o, toTs) {
        assert Swap(o) in rows && Partners(e, Swap(o), toTs);
      }
    }
    forall v: Variant ensures Count(swapped, OfVariant(key, v)) == Count(rows, OfVariant(key, Other(v)))
      && Count(swapped, Unpaired(swapped, key, v, toTs)) == Count(rows, Unpaired(rows, key, Other(v), toTs))
    {
      CountSwapped(rows, OfVariant(key, Other(v)), OfVariant(key, v));
      CountSwapped(rows, Unpaired(rows, key, Other(v), toTs), Unpaired(swapped, key, v, toTs));
    }
    assert Other(Baseline) == Patched && Other(Patched) == Baseline;
  }

  /**
   A row that misleads them: an open episode that starts after the window's end. The replay never writes one; only
   a foreign writer could.
   */
  lemma LateOpenEpisodeMisleads(key: SlotKey)
    ensures var open := Episode(Patched, key, 5, None);
            var closed := Episode(Baseline, key, 4, Some(6));
            var rows := [closed, open];
            && !HasPartner(open, rows, 3) && !HasPartner(closed, rows, 3)
            && Partition(rows, key) == rows && WindowPaired(rows, 1, 3)
  {
    var open := Episode(Patched, key, 5, None);
    var closed := Episode(Baseline, key, 4, Some(6));
    var rows := [closed, open];
    FilterAll(rows, OfKey(key));
    assert rows[..1] == [closed] && rows[..1][..0] == [];
    assert SortBy([closed], Before) == [closed];
    WindowsSee(rows, 1, 3);
    assert Sees(rows, 1, 0, 3);
  }
}
