/**
Filtering, stable sorting and counting arguments over sequences. `SortBy` stands for the language's
own stable `Array.prototype.sort`: inserting from left to right after every element that is not
greater keeps equal elements in their input order.
*/
module Sequences {

  function Filter<T>(s: seq<T>, keep: T -> bool): seq<T> {
    if s == [] then []
    else
      var n := |s| - 1;
      Filter(s[..n], keep) + if keep(s[n]) then [s[n]] else []
  }

  lemma {:induction false} FilterAppend<T>(a: seq<T>, b: seq<T>, keep: T -> bool)
    ensures Filter(a + b, keep) == Filter(a, keep) + Filter(b, keep)
  {
    if b == [] {
      assert a + b == a;
    } else {
      var n := |b| - 1;
      assert (a + b)[..|a + b| - 1] == a + b[..n];
      FilterAppend(a, b[..n], keep);
    }
  }

  lemma FilterOneMore<T>(s: seq<T>, x: T, keep: T -> bool)
    ensures Filter(s + [x], keep) == Filter(s, keep) + if keep(x) then [x] else []
  {
    assert (s + [x])[..|s|] == s;
  }

  /** The order of two filters does not matter. */
  lemma {:induction false} FiltersCommute<T>(s: seq<T>, p: T -> bool, q: T -> bool)
    ensures Filter(Filter(s, p), q) == Filter(Filter(s, q), p)
  {
    if s != [] {
      var n := |s| - 1;
      var x := s[n];
      FiltersCommute(s[..n], p, q);
      assert s == s[..n] + [x];
      FilterOneMore(s[..n], x, p);
      FilterOneMore(s[..n], x, q);
      FilterOneMore(Filter(s[..n], p), x, q);
      FilterOneMore(Filter(s[..n], q), x, p);
      assert Filter(s[..n], p) + [] == Filter(s[..n], p) && Filter(s[..n], q) + [] == Filter(s[..n], q);
    }
  }

  lemma {:induction false} FilterMembers<T>(s: seq<T>, keep: T -> bool)
    ensures forall x :: x in Filter(s, keep) ==> x in s && keep(x)
    ensures forall x :: x in s && keep(x) ==> x in Filter(s, keep)
    ensures |Filter(s, keep)| <= |s|
  {
    if s != [] {
      var n := |s| - 1;
      FilterMembers(s[..n], keep);
      assert s == s[..n] + [s[n]];
    }
  }

  lemma {:induction false} FilterAll<T>(s: seq<T>, keep: T -> bool)
    requires forall x :: x in s ==> keep(x)
    ensures Filter(s, keep) == s
  {
    if s != [] {
      var n := |s| - 1;
      FilterAll(s[..n], keep);
      assert s == s[..n] + [s[n]];
    }
  }

  lemma {:induction false} FilterNone<T>(s: seq<T>, keep: T -> bool)
    requires forall x :: x in s ==> !keep(x)
    ensures Filter(s, keep) == []
  {
    if s != [] {
      var n := |s| - 1;
      FilterNone(s[..n], keep);
      assert s == s[..n] + [s[n]];
    }
  }

  ghost predicate Pairwise<T>(s: seq<T>, rel: (T, T) -> bool) {
    forall i, j :: 0 <= i < j < |s| ==> rel(s[i], s[j])
  }

  /** What holds of every earlier and later element still holds after filtering. */
  lemma {:induction false} FilterPairwise<T>(s: seq<T>, keep: T -> bool, rel: (T, T) -> bool)
    requires Pairwise(s, rel)
    ensures Pairwise(Filter(s, keep), rel)
  {
    if s != [] {
      var n := |s| - 1;
      var front := s[..n];
      FilterPairwise(front, keep, rel);
      FilterMembers(front, keep);
      var kept := Filter(front, keep);
      forall k | 0 <= k < |kept| ensures rel(kept[k], s[n]) {
        assert kept[k] in kept;
        var i :| 0 <= i < |front| && front[i] == kept[k];
        assert s[i] == kept[k];
      }
    }
  }

  ghost predicate Distinct<T>(s: seq<T>) {
    forall i, j :: 0 <= i < j < |s| ==> s[i] != s[j]
  }

  // ---------------------------------------------------------------- sorting

  ghost predicate TotalPreorder<T(!new)>(le: (T, T) -> bool) {
    && (forall a, b :: le(a, b) || le(b, a))
    && (forall a, b, c :: le(a, b) && le(b, c) ==> le(a, c))
  }

  ghost predicate Antisymmetric<T(!new)>(le: (T, T) -> bool) {
    forall a, b :: le(a, b) && le(b, a) ==> a == b
  }

  ghost predicate SortedBy<T>(s: seq<T>, le: (T, T) -> bool) {
    forall i, j :: 0 <= i < j < |s| ==> le(s[i], s[j])
  }

  function Insert<T>(s: seq<T>, x: T, le: (T, T) -> bool): seq<T> {
    if s == [] || le(s[|s| - 1], x) then s + [x]
    else Insert(s[..|s| - 1], x, le) + [s[|s| - 1]]
  }

  function SortBy<T>(s: seq<T>, le: (T, T) -> bool): seq<T> {
    if s == [] then [] else Insert(SortBy(s[..|s| - 1], le), s[|s| - 1], le)
  }

  lemma {:induction false} InsertPermutes<T>(s: seq<T>, x: T, le: (T, T) -> bool)
    ensures multiset(Insert(s, x, le)) == multiset(s) + multiset{x}
  {
    if s == [] || le(s[|s| - 1], x) {
    } else {
      InsertPermutes(s[..|s| - 1], x, le);
      assert s == s[..|s| - 1] + [s[|s| - 1]];
    }
  }

  lemma {:induction false} InsertKeepsSorted<T(!new)>(s: seq<T>, x: T, le: (T, T) -> bool)
    requires TotalPreorder(le) && SortedBy(s, le)
    ensures SortedBy(Insert(s, x, le), le)
  {
    if s == [] {
    } else if le(s[|s| - 1], x) {
      forall i | 0 <= i < |s| ensures le(s[i], x) {
        assert i == |s| - 1 || le(s[i], s[|s| - 1]);
      }
    } else {
      var front, last := s[..|s| - 1], s[|s| - 1];
      InsertKeepsSorted(front, x, le);
      InsertPermutes(front, x, le);
      var r := Insert(front, x, le);
      forall y | y in r ensures le(y, last) {
        assert y in multiset(r);
        assert y == x || y in front;
      }
    }
  }

  /** A sort rearranges and nothing else, and its result is in order. */
  lemma {:induction false} SortSorts<T(!new)>(s: seq<T>, le: (T, T) -> bool)
    requires TotalPreorder(le)
    ensures SortedBy(SortBy(s, le), le)
    ensures multiset(SortBy(s, le)) == multiset(s)
    ensures |SortBy(s, le)| == |s|
    ensures forall x :: x in SortBy(s, le) <==> x in s
  {
    if s != [] {
      var front := s[..|s| - 1];
      SortSorts(front, le);
      InsertKeepsSorted(SortBy(front, le), s[|s| - 1], le);
      InsertPermutes(SortBy(front, le), s[|s| - 1], le);
      assert s == front + [s[|s| - 1]];
    }
    SameElements(SortBy(s, le), s);
  }

  lemma SameElements<T>(a: seq<T>, b: seq<T>)
    requires multiset(a) == multiset(b)
    ensures |a| == |b|
    ensures forall x :: x in a <==> x in b
  {
    assert |multiset(a)| == |a| && |multiset(b)| == |b|;
    forall x ensures x in a <==> x in b {
      assert x in a <==> x in multiset(a);
      assert x in b <==> x in multiset(b);
    }
  }

  lemma LastIsGreatest<T(!new)>(a: seq<T>, le: (T, T) -> bool, x: T)
    requires TotalPreorder(le) && SortedBy(a, le) && x in a
    ensures le(x, a[|a| - 1])
  {
    var i :| 0 <= i < |a| && a[i] == x;
    assert i == |a| - 1 || le(a[i], a[|a| - 1]);
  }

  lemma LastsAgree<T(!new)>(a: seq<T>, b: seq<T>, le: (T, T) -> bool)
    requires TotalPreorder(le) && Antisymmetric(le)
    requires SortedBy(a, le) && SortedBy(b, le) && a != [] && multiset(a) == multiset(b)
    ensures b != [] && a[|a| - 1] == b[|b| - 1]
  {
    SameElements(a, b);
    LastIsGreatest(b, le, a[|a| - 1]);
    LastIsGreatest(a, le, b[|b| - 1]);
  }

  lemma FrontOf<T>(a: seq<T>, le: (T, T) -> bool)
    requires SortedBy(a, le) && a != []
    ensures SortedBy(a[..|a| - 1], le)
    ensures multiset(a) == multiset(a[..|a| - 1]) + multiset{a[|a| - 1]}
    ensures a == a[..|a| - 1] + [a[|a| - 1]]
  {
    assert a == a[..|a| - 1] + [a[|a| - 1]];
  }

  /** For a total order the sorted arrangement of a multiset is unique, so it forgets the input order. */
  lemma {:induction false} SortedIsUnique<T(!new)>(a: seq<T>, b: seq<T>, le: (T, T) -> bool)
    requires TotalPreorder(le) && Antisymmetric(le)
    requires SortedBy(a, le) && SortedBy(b, le) && multiset(a) == multiset(b)
    ensures a == b
    decreases |a|
  {
    if a == [] {
      SameElements(a, b);
    } else {
      LastsAgree(a, b, le);
      FrontOf(a, le);
      FrontOf(b, le);
      CancelLast(multiset(a[..|a| - 1]), multiset(b[..|b| - 1]), a[|a| - 1]);
      SortedIsUnique(a[..|a| - 1], b[..|b| - 1], le);
    }
  }

  lemma CancelLast<T>(m: multiset<T>, n: multiset<T>, x: T)
    requires m + multiset{x} == n + multiset{x}
    ensures m == n
  {
    assert m == (m + multiset{x}) - multiset{x};
  }

  lemma {:induction false} DistinctSurvivesPermutation<T>(a: seq<T>, b: seq<T>)
    requires multiset(a) == multiset(b) && Distinct(a)
    ensures Distinct(b)
  {
    forall x | x in b ensures multiset(b)[x] == 1 {
      DistinctCount(a, x);
      assert x in multiset(b);
    }
    forall i, j | 0 <= i < j < |b| ensures b[i] != b[j] {
      RepeatCounts(b, i, j);
    }
  }

  lemma RepeatCounts<T>(b: seq<T>, i: nat, j: nat)
    requires i < j < |b|
    ensures b[i] == b[j] ==> multiset(b)[b[i]] >= 2
  {
    assert b == b[..i] + [b[i]] + b[i + 1..j] + [b[j]] + b[j + 1..];
  }

  lemma {:induction false} DistinctCount<T>(a: seq<T>, x: T)
    requires Distinct(a)
    ensures multiset(a)[x] == if x in a then 1 else 0
  {
    if a != [] {
      var n := |a| - 1;
      DistinctCount(a[..n], x);
      assert a == a[..n] + [a[n]];
    }
  }

  // ---------------------------------------------------------------- order of texts

  predicate TextLe(a: string, b: string) {
    a == "" || (b != "" && (a[0] < b[0] || (a[0] == b[0] && TextLe(a[1..], b[1..]))))
  }

  lemma {:induction false} TextLeConnects(a: string, b: string)
    ensures TextLe(a, b) || TextLe(b, a)
    ensures TextLe(a, b) && TextLe(b, a) ==> a == b
  {
    if a != "" && b != "" && a[0] == b[0] {
      TextLeConnects(a[1..], b[1..]);
      assert a == [a[0]] + a[1..] && b == [b[0]] + b[1..];
    }
  }

  lemma {:induction false} TextLeChains(a: string, b: string, c: string)
    requires TextLe(a, b) && TextLe(b, c)
    ensures TextLe(a, c)
  {
    if a != "" && a[0] == b[0] == c[0] {
      TextLeChains(a[1..], b[1..], c[1..]);
    }
  }

  lemma TextLeIsTotalOrder()
    ensures TotalPreorder(TextLe) && Antisymmetric(TextLe)
  {
    forall a, b ensures (TextLe(a, b) || TextLe(b, a)) && (TextLe(a, b) && TextLe(b, a) ==> a == b) {
      TextLeConnects(a, b);
    }
    forall a, b, c | TextLe(a, b) && TextLe(b, c) ensures TextLe(a, c) {
      TextLeChains(a, b, c);
    }
  }

  // ---------------------------------------------------------------- joined texts

  lemma SplitAtFirst(sep: char, a: string, b: string, restA: string, restB: string)
    requires sep !in a && sep !in b
    requires a + [sep] + restA == b + [sep] + restB
    ensures a == b && restA == restB
  {
    var left, right := a + [sep] + restA, b + [sep] + restB;
    assert left[|a|] == sep && right[|b|] == sep;
    assert forall k :: 0 <= k < |a| ==> left[k] == a[k];
    assert forall k :: 0 <= k < |b| ==> right[k] == b[k];
    assert left[..|a|] == a && right[..|b|] == b;
    assert left[|a| + 1..] == restA && right[|b| + 1..] == restB;
  }

  lemma SplitAtLast(sep: char, a: string, b: string, restA: string, restB: string)
    requires sep !in restA && sep !in restB
    requires a + [sep] + restA == b + [sep] + restB
    ensures a == b && restA == restB
  {
    var left, right := a + [sep] + restA, b + [sep] + restB;
    assert left[|a|] == sep && right[|b|] == sep;
    assert forall k :: |a| < k < |left| ==> left[k] == restA[k - |a| - 1];
    assert forall k :: |b| < k < |right| ==> right[k] == restB[k - |b| - 1];
    assert left[..|a|] == a && right[..|b|] == b;
    assert left[|a| + 1..] == restA && right[|b| + 1..] == restB;
  }

  // ---------------------------------------------------------------- counting

  /** Distinct choices out of `bound` numbers cannot be more than `bound`. */
  lemma {:induction false} Pigeonhole(choices: seq<nat>, bound: nat)
    requires Distinct(choices)
    requires forall c :: c in choices ==> c < bound
    ensures |choices| <= bound
    decreases bound
  {
    if choices != [] {
      var n := |choices| - 1;
      var last := choices[n];
      assert last in choices;
      var rest := seq(n, i requires 0 <= i < n => if choices[i] == bound - 1 then last else choices[i]);
      forall i, j | 0 <= i < j < n ensures rest[i] != rest[j] {
        assert choices[i] != choices[j] && choices[i] != last && choices[j] != last;
      }
      forall c | c in rest ensures c < bound - 1 {
        var i :| 0 <= i < n && rest[i] == c;
        assert choices[i] in choices && choices[i] != last;
      }
      Pigeonhole(rest, bound - 1);
    }
  }
}
