/** The consumer group's assigner: the partition with number p of any topic goes to member p, counted round. */
module CoPartitioning {
  import opened Sequences
  import opened Arithmetic

  /** What one member reads: partition numbers by topic. */
  type Assignment = map<string, seq<nat>>

  /** Partition numbers of each topic as the cluster reports them; an unknown topic has none. */
  type Cluster = map<string, seq<nat>>

  predicate AtMost(a: nat, b: nat) {
    a <= b
  }

  lemma AtMostIsTotalOrder()
    ensures TotalPreorder(AtMost) && Antisymmetric(AtMost)
  {
  }

  function PartitionsOf(cluster: Cluster, topic: string): seq<nat> {
    SortBy(if topic in cluster then cluster[topic] else [], AtMost)
  }

  function Share(assignment: Assignment, topic: string): seq<nat> {
    if topic in assignment then assignment[topic] else []
  }

  function Falls(sorted: seq<string>, member: string): nat -> bool
    requires sorted != []
  {
    (p: nat) => sorted[Remainder(p, |sorted|)] == member
  }

  /** The partitions of one topic that fall to a member. */
  function Dealt(sorted: seq<string>, member: string, partitions: seq<nat>): seq<nat>
    requires sorted != []
  {
    Filter(partitions, Falls(sorted, member))
  }

  ghost predicate Distributed(
    assignments: map<string, Assignment>, sorted: seq<string>, topics: seq<string>, cluster: Cluster)
    requires sorted != []
  {
    && (forall m :: m in assignments <==> m in sorted)
    && (forall m, t :: m in assignments && t in topics ==>
      Share(assignments[m], t) == Dealt(sorted, m, PartitionsOf(cluster, t)))
    && (forall m, t :: m in assignments && t !in topics ==> Share(assignments[m], t) == [])
  }

  lemma NothingDealt(sorted: seq<string>)
    requires sorted != []
    ensures forall m :: Dealt(sorted, m, []) == []
  {
  }

  lemma DealtOneMore(sorted: seq<string>, partitions: seq<nat>, j: nat)
    requires sorted != [] && j < |partitions|
    ensures forall m ::
              Dealt(sorted, m, partitions[..j + 1]) ==
              Dealt(sorted, m, partitions[..j])
              + if m == sorted[Remainder(partitions[j], |sorted|)] then [partitions[j]] else []
  {
    assert partitions[..j + 1][..j] == partitions[..j];
  }

  /** The inner loop: one topic's partitions, in ascending order. */
  method DealTopic(before: map<string, Assignment>, sorted: seq<string>, topic: string, partitions: seq<nat>)
    returns (after: map<string, Assignment>)
    requires sorted != [] && forall m :: m in before <==> m in sorted
    requires forall m :: m in before ==> Share(before[m], topic) == []
    ensures forall m :: m in after <==> m in sorted
    ensures forall m, t :: m in after && t != topic ==> Share(after[m], t) == Share(before[m], t)
    ensures forall m :: m in after ==> Share(after[m], topic) == Dealt(sorted, m, partitions)
  {
    hide Dealt;
    after := before;
    NothingDealt(sorted);
    for j := 0 to |partitions|
      invariant forall m :: m in after <==> m in sorted
      invariant forall m, t :: m in after && t != topic ==> Share(after[m], t) == Share(before[m], t)
      invariant forall m :: m in after ==> Share(after[m], topic) == Dealt(sorted, m, partitions[..j])
    {
      var partition := partitions[j];
      var memberId := sorted[Remainder(partition, |sorted|)];
      var assignment := after[memberId];
      DealtOneMore(sorted, partitions, j);
      after := after[memberId := assignment[topic := Share(assignment, topic) + [partition]]];
    }
    assert partitions[..|partitions|] == partitions;
  }

  method NoShares(sorted: seq<string>) returns (assignments: map<string, Assignment>)
    ensures forall m :: m in assignments <==> m in sorted
    ensures forall m :: m in assignments ==> assignments[m] == map[]
  {
    assignments := map[];
    for i := 0 to |sorted|
      invariant forall m :: m in assignments <==> m in sorted[..i]
      invariant forall m :: m in assignments ==> assignments[m] == map[]
    {
      assignments := assignments[sorted[i] := map[]];
      assert sorted[..i + 1] == sorted[..i] + [sorted[i]];
    }
    assert sorted[..|sorted|] == sorted;
  }

  method DealTopics(empty: map<string, Assignment>, sorted: seq<string>, topics: seq<string>, cluster: Cluster)
    returns (assignments: map<string, Assignment>)
    requires Distinct(topics) && sorted != []
    requires forall m :: m in empty <==> m in sorted
    requires forall m :: m in empty ==> empty[m] == map[]
    ensures Distributed(assignments, sorted, topics, cluster)
  {
    hide Dealt, PartitionsOf;
    assignments := empty;
    for k := 0 to |topics|
      invariant Distributed(assignments, sorted, topics[..k], cluster)
    {
      assert topics[..k + 1] == topics[..k] + [topics[k]];
      assert topics[k] !in topics[..k];
      assignments := DealTopic(assignments, sorted, topics[k], PartitionsOf(cluster, topics[k]));
    }
    assert topics[..|topics|] == topics;
  }

  method Assign(members: seq<string>, topics: seq<string>, cluster: Cluster)
    returns (assignments: map<string, Assignment>)
    requires Distinct(topics)
    ensures members == [] ==> assignments == map[]
    ensures members != [] ==>
              SortBy(members, TextLe) != [] && Distributed(assignments, SortBy(members, TextLe), topics, cluster)
  {
    hide TextLe, Distributed;
    SortedMembers(members);
    var sorted := SortBy(members, TextLe);
    if sorted == [] {
      return map[];
    }
    var empty := NoShares(sorted);
    assignments := DealTopics(empty, sorted, topics, cluster);
  }

  lemma SortedMembers(members: seq<string>)
    ensures |SortBy(members, TextLe)| == |members|
  {
    hide TextLe;
    TextLeIsTotalOrder();
    SortSorts(members, TextLe);
  }

  // ---------------------------------------------------------------- what the distribution promises

  /** Every partition of every topic has exactly one reader, the same for the same number in every topic. */
  lemma OneReaderEach(
    assignments: map<string, Assignment>, sorted: seq<string>, topics: seq<string>, cluster: Cluster, topic: string,
    p: nat,
    member: string)
    requires sorted != [] && Distributed(assignments, sorted, topics, cluster)
    requires topic in topics && topic in cluster && p in cluster[topic] && member in assignments
    ensures p in Share(assignments[member], topic) <==> member == sorted[Remainder(p, |sorted|)]
  {
    AtMostIsTotalOrder();
    SortSorts(cluster[topic], AtMost);
    FilterMembers(PartitionsOf(cluster, topic), Falls(sorted, member));
  }

  lemma SameNumberSameReader(
    assignments: map<string, Assignment>, sorted: seq<string>, topics: seq<string>, cluster: Cluster, t1: string,
    t2: string,
    p: nat, member: string)
    requires sorted != [] && Distributed(assignments, sorted, topics, cluster)
    requires t1 in topics && t1 in cluster && p in cluster[t1] && t2 in topics && t2 in cluster && p in cluster[t2]
    requires member in assignments
    ensures p in Share(assignments[member], t1) <==> p in Share(assignments[member], t2)
  {
    OneReaderEach(assignments, sorted, topics, cluster, t1, p, member);
    OneReaderEach(assignments, sorted, topics, cluster, t2, p, member);
  }

  function UpTo(n: nat): seq<nat> {
    seq(n, i requires 0 <= i < n => i)
  }

  /**
   Numbers 0 .. k-1 that leave remainder j: every full round has one, and so has the started round if it came to j.
   */
  function Turns(k: nat, n: nat, j: nat): int
    requires n >= 1
  {
    Quotient(k, n) + if j < Remainder(k, n) then 1 else 0
  }

  lemma {:induction false} DealtTurns(sorted: seq<string>, j: nat, k: nat)
    requires Distinct(sorted) && j < |sorted|
    ensures |Dealt(sorted, sorted[j], UpTo(k))| == Turns(k, |sorted|, j)
  {
    hide Quotient, Remainder;
    var n := |sorted|;
    if k > 0 {
      DealtTurns(sorted, j, k - 1);
      assert UpTo(k)[..k - 1] == UpTo(k - 1);
      var turn := Remainder(k - 1, n);
      assert sorted[turn] == sorted[j] <==> turn == j;
      NextTurn(k - 1, n);
    } else {
      TimesAdds(0, 0, n);
      QuotientIs(0, n, 0);
      QuotientOf(0, n);
    }
  }

  /** One number more either goes on in the round or starts a new one. */
  lemma NextTurn(k: nat, n: nat)
    requires n >= 1
    ensures if Remainder(k, n) == n - 1 then Quotient(k + 1, n) == Quotient(k, n) + 1 && Remainder(k + 1, n) == 0
            else Quotient(k + 1, n) == Quotient(k, n) && Remainder(k + 1, n) == Remainder(k, n) + 1
  {
    hide Quotient, Remainder, Times;
    QuotientOf(k, n);
    QuotientOf(k + 1, n);
    TimesAdds(Quotient(k, n), 1, n);
    if Remainder(k, n) == n - 1 {
      QuotientIs(k + 1, n, Quotient(k, n) + 1);
    } else {
      QuotientIs(k + 1, n, Quotient(k, n));
    }
  }

  /** Partitions numbered 0 .. k-1 are dealt so that no two members differ by more than one. */
  lemma CountsDifferByOne(
    assignments: map<string, Assignment>, sorted: seq<string>, topics: seq<string>, cluster: Cluster, topic: string,
    k: nat,
    m1: string, m2: string)
    requires sorted != [] && Distinct(sorted) && Distributed(assignments, sorted, topics, cluster)
    requires topic in topics && PartitionsOf(cluster, topic) == UpTo(k) && m1 in sorted && m2 in sorted
    ensures |Share(assignments[m1], topic)| <= |Share(assignments[m2], topic)| + 1
  {
    var i :| 0 <= i < |sorted| && sorted[i] == m1;
    var j :| 0 <= j < |sorted| && sorted[j] == m2;
    DealtTurns(sorted, i, k);
    DealtTurns(sorted, j, k);
  }

  /** However the cluster lists partitions 0 .. k-1, sorting brings them into that order. */
  lemma ListedInAnyOrder(cluster: Cluster, topic: string, k: nat)
    requires topic in cluster && multiset(cluster[topic]) == multiset(UpTo(k))
    ensures PartitionsOf(cluster, topic) == UpTo(k)
  {
    AtMostIsTotalOrder();
    SortSorts(cluster[topic], AtMost);
    SortedIsUnique(PartitionsOf(cluster, topic), UpTo(k), AtMost);
  }

  lemma MemberOrderDoesNotMatter(a: seq<string>, b: seq<string>)
    requires multiset(a) == multiset(b)
    ensures SortBy(a, TextLe) == SortBy(b, TextLe)
  {
    hide TextLe;
    TextLeIsTotalOrder();
    SortSorts(a, TextLe);
    SortSorts(b, TextLe);
    SortedIsUnique(SortBy(a, TextLe), SortBy(b, TextLe), TextLe);
  }

  /** The member reads this partition. */
  predicate Reads(assignments: map<string, Assignment>, member: string, topic: string, p: nat) {
    member in assignments && p in Share(assignments[member], topic)
  }

  /** One member reads it and no other does. */
  ghost predicate HasOneReader(assignments: map<string, Assignment>, topic: string, p: nat) {
    exists m :: Reads(assignments, m, topic, p) && forall other :: Reads(assignments, other, topic, p) ==> other == m
  }

  /** The topic is subscribed to and has this partition. */
  predicate IsPartition(topics: seq<string>, cluster: Cluster, topic: string, p: nat) {
    topic in topics && topic in cluster && p in cluster[topic]
  }

  lemma ReaderIsInTurn(
    assignments: map<string, Assignment>, sorted: seq<string>, topics: seq<string>, cluster: Cluster, topic: string,
    p: nat)
    requires sorted != [] && Distributed(assignments, sorted, topics, cluster) && IsPartition(topics, cluster, topic, p)
    ensures forall m :: Reads(assignments, m, topic, p) <==> m == sorted[Remainder(p, |sorted|)]
    ensures HasOneReader(assignments, topic, p)
  {
    hide Share, Dealt, PartitionsOf;
    var reader := sorted[Remainder(p, |sorted|)];
    forall m ensures Reads(assignments, m, topic, p) <==> m == reader {
      if m in assignments {
        OneReaderEach(assignments, sorted, topics, cluster, topic, p, m);
      }
    }
    assert Reads(assignments, reader, topic, p);
  }

  /** What a member reads of a topic lists no partition twice. */
  lemma ReadsEachOnce(sorted: seq<string>, member: string, cluster: Cluster, topic: string)
    requires sorted != [] && topic in cluster && Distinct(cluster[topic])
    ensures Distinct(Dealt(sorted, member, PartitionsOf(cluster, topic)))
  {
    AtMostIsTotalOrder();
    SortSorts(cluster[topic], AtMost);
    DistinctSurvivesPermutation(cluster[topic], PartitionsOf(cluster, topic));
    var differ := (a: nat, b: nat) => a != b;
    FilterPairwise(PartitionsOf(cluster, topic), Falls(sorted, member), differ);
  }

  /**
   Co-partitioning. For any nonempty list of members without repetition: every partition of every topic has exactly
   one reader, the same one for the same number in every topic; and however the same members are reported, the same
   members get assignments and every one of them reads the same partitions of every topic.
   */
  lemma CoPartitioned(
    members: seq<string>, reordered: seq<string>, x: map<string, Assignment>, y: map<string, Assignment>,
    topics: seq<string>, cluster: Cluster)
    requires members != [] && Distinct(members) && multiset(reordered) == multiset(members)
    requires SortBy(members, TextLe) != [] && SortBy(reordered, TextLe) != []
    requires Distributed(x, SortBy(members, TextLe), topics, cluster)
    requires Distributed(y, SortBy(reordered, TextLe), topics, cluster)
    ensures forall t, p :: IsPartition(topics, cluster, t, p) ==> HasOneReader(x, t, p)
    ensures forall t1, t2, p, m :: IsPartition(topics, cluster, t1, p) && IsPartition(topics, cluster, t2, p) ==>
              (Reads(x, m, t1, p) <==> Reads(x, m, t2, p))
    ensures x.Keys == y.Keys == set m | m in members
    ensures forall m, t :: m in x && m in y ==> Share(x[m], t) == Share(y[m], t)
  {
    hide TextLe, Distributed, Reads, HasOneReader, IsPartition, Share;
    var sorted := SortBy(members, TextLe);
    MemberOrderDoesNotMatter(members, reordered);
    forall t, p | IsPartition(topics, cluster, t, p) ensures HasOneReader(x, t, p) {
      ReaderIsInTurn(x, sorted, topics, cluster, t, p);
    }
    forall t1, t2, p, m | IsPartition(topics, cluster, t1, p) && IsPartition(topics, cluster, t2, p)
      ensures Reads(x, m, t1, p) <==> Reads(x, m, t2, p)
    {
      ReaderIsInTurn(x, sorted, topics, cluster, t1, p);
      ReaderIsInTurn(x, sorted, topics, cluster, t2, p);
    }
    AssignedAreMembers(members, x, topics, cluster);
    AssignedAreMembers(reordered, y, topics, cluster);
    SameElements(members, reordered);
    assert (set m | m in reordered) == set m | m in members;
    forall m, t | m in x && m in y ensures Share(x[m], t) == Share(y[m], t) {
      DistributionIsDetermined(x, y, sorted, topics, cluster, m, t);
    }
  }

  lemma AssignedAreMembers(members: seq<string>, x: map<string, Assignment>, topics: seq<string>, cluster: Cluster)
    requires SortBy(members, TextLe) != [] && Distributed(x, SortBy(members, TextLe), topics, cluster)
    ensures x.Keys == set m | m in members
  {
    hide TextLe, Share, Dealt, PartitionsOf;
    TextLeIsTotalOrder();
    SortSorts(members, TextLe);
  }

  /** Two distributions over the same sorted members give every member the same shares. */
  lemma DistributionIsDetermined(
    x: map<string, Assignment>, y: map<string, Assignment>, sorted: seq<string>, topics: seq<string>, cluster: Cluster,
    member: string, topic: string)
    requires sorted != [] && Distributed(x, sorted, topics, cluster) && Distributed(y, sorted, topics, cluster)
    requires member in x && member in y
    ensures Share(x[member], topic) == Share(y[member], topic)
  {
    hide Share, Dealt, PartitionsOf;
    if topic in topics {
      assert Share(x[member], topic) == Dealt(sorted, member, PartitionsOf(cluster, topic));
    } else {
      assert Share(x[member], topic) == [];
    }
  }
}
