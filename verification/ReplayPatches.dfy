/**
Patches of alarm rules for a replay: laid over a snapshot before the run, and reported as changed rules after
it. Both sides have to tell the same story.
*/
module ReplayPatches {
  import opened Wrappers
  import opened Sequences
  import opened AlarmEngine

  /** A field a patch may leave out. */
  datatype Field<+T> = Keep | Put(value: T) {
    function Over(before: T): T {
      match this
      case Put(v) => v
      case Keep => before
    }
  }

  datatype Patch = Patch(
    metricKey: string,
    mode: DeviceMode,
    minValue: Field<Option<real>>,
    maxValue: Field<Option<real>>,
    hysteresis: Field<real>,
    debounceCycles: Field<int>,
    enabled: Field<bool>)

  /** Why a patch is refused. */
  datatype Issue =
    | NoTarget(patch: nat)
    | BrokenRule(patch: nat, rule: nat)
    | NothingChanged(patch: nat)

  datatype Outcome = Accepted(rules: seq<AlarmRule>) | Refused(issues: seq<Issue>)

  function PatchRule(rule: AlarmRule, patch: Patch): AlarmRule {
    rule.(
      minValue := patch.minValue.Over(rule.minValue),
      maxValue := patch.maxValue.Over(rule.maxValue),
      hysteresis := patch.hysteresis.Over(rule.hysteresis),
      debounceCycles := patch.debounceCycles.Over(rule.debounceCycles),
      enabled := patch.enabled.Over(rule.enabled))
  }

  predicate Aims(patch: Patch, rule: AlarmRule) {
    rule.metricKey == patch.metricKey && rule.mode == patch.mode
  }

  predicate SameRule(a: AlarmRule, b: AlarmRule) {
    && a.minValue == b.minValue && a.maxValue == b.maxValue && a.hysteresis == b.hysteresis
    && a.debounceCycles == b.debounceCycles && a.severity == b.severity && a.enabled == b.enabled
  }

  /** Of one device, metric and mode, rules are the same exactly if they agree in every field. */
  lemma SameRuleIsEquality(a: AlarmRule, b: AlarmRule)
    requires a.deviceCode == b.deviceCode && a.metricKey == b.metricKey && a.mode == b.mode
    ensures SameRule(a, b) <==> a == b
    ensures Matters(a, b) <==> a != b && !(a.enabled == b.enabled == false)
  {
  }

  /** A difference counts unless the rule is off before and after. */
  predicate Matters(before: AlarmRule, after: AlarmRule) {
    !SameRule(before, after) && (before.enabled || after.enabled)
  }

  /** The patch a form would send to turn rule `a` into rule `b`: only what differs. */
  function Difference(a: AlarmRule, b: AlarmRule): Patch {
    Patch(a.metricKey, a.mode,
          if a.minValue == b.minValue then Keep else Put(b.minValue),
          if a.maxValue == b.maxValue then Keep else Put(b.maxValue),
          if a.hysteresis == b.hysteresis then Keep else Put(b.hysteresis),
          if a.debounceCycles == b.debounceCycles then Keep else Put(b.debounceCycles),
          if a.enabled == b.enabled then Keep else Put(b.enabled))
  }

  /** The patch that does what `first` and then `second` do. */
  function Then(first: Patch, second: Patch): Patch {
    Patch(first.metricKey, first.mode,
          if second.minValue.Put? then second.minValue else first.minValue,
          if second.maxValue.Put? then second.maxValue else first.maxValue,
          if second.hysteresis.Put? then second.hysteresis else first.hysteresis,
          if second.debounceCycles.Put? then second.debounceCycles else first.debounceCycles,
          if second.enabled.Put? then second.enabled else first.enabled)
  }

  /**
   The round trip: patching by the difference of two rules of one key and severity gives the second, bounds taken
   away included; and such a patch is accepted for the first rule exactly when the second is valid and the change
   matters.
   */
  lemma DifferenceIsAPatch(a: AlarmRule, b: AlarmRule)
    requires a.deviceCode == b.deviceCode && a.metricKey == b.metricKey && a.mode == b.mode && a.severity == b.severity
    ensures PatchRule(a, Difference(a, b)) == b
    ensures Fits([a], Difference(a, b)) <==> ValidRule(b) && Matters(a, b)
  {
    assert PatchRule(a, Difference(a, b)) == b;
    assert [a][0] == a;
  }

  /** Which patches of one field leave a valid rule valid. */
  lemma OneFieldIsValidIff(rule: AlarmRule, cycles: int, hysteresis: real, bound: Option<real>)
    requires ValidRule(rule)
    ensures var keep := Patch(rule.metricKey, rule.mode, Keep, Keep, Keep, Keep, Keep);
            && (ValidRule(PatchRule(rule, keep.(debounceCycles := Put(cycles)))) <==> 1 <= cycles <= 60)
            && (ValidRule(PatchRule(rule, keep.(hysteresis := Put(hysteresis)))) <==> hysteresis >= 0.0)
            && (ValidRule(PatchRule(rule, keep.(minValue := Put(bound)))) <==>
                  match bound
                  case None => rule.maxValue.Some?
                  case Some(least) => rule.maxValue.Some? ==> least < rule.maxValue.value)
            && (ValidRule(PatchRule(rule, keep.(maxValue := Put(bound)))) <==>
                  match bound
                  case None => rule.minValue.Some?
                  case Some(most) => rule.minValue.Some? ==> rule.minValue.value < most)
  {
  }

  /** Patches compose, the later one prevailing, so a patch laid twice does what it does once. */
  lemma PatchesCompose(rule: AlarmRule, first: Patch, second: Patch)
    ensures PatchRule(PatchRule(rule, first), second) == PatchRule(rule, Then(first, second))
    ensures PatchRule(PatchRule(rule, first), first) == PatchRule(rule, first)
  {
  }

  // ---------------------------------------------------------------- laying patches over the snapshot

  function OnePatch(rule: AlarmRule, patch: Patch): AlarmRule {
    if Aims(patch, rule) && ValidRule(PatchRule(rule, patch)) then PatchRule(rule, patch) else rule
  }

  function Laid(rule: AlarmRule, patches: seq<Patch>): AlarmRule {
    if patches == [] then rule else OnePatch(Laid(rule, patches[..|patches| - 1]), patches[|patches| - 1])
  }

  /** The patch finds a rule, breaks none and changes one that matters. */
  ghost predicate Fits(rules: seq<AlarmRule>, patch: Patch) {
    && (forall i :: 0 <= i < |rules| && Aims(patch, rules[i]) ==> ValidRule(PatchRule(rules[i], patch)))
    && (exists i :: 0 <= i < |rules| && Aims(patch, rules[i]) && Matters(rules[i], PatchRule(rules[i], patch)))
  }

  function LaidRules(baseline: seq<AlarmRule>, patches: seq<Patch>): seq<AlarmRule> {
    seq(|baseline|, i requires 0 <= i < |baseline| => Laid(baseline[i], patches))
  }

  /** Patch k fits the rules as the patches before it left them. */
  ghost predicate FitsInTurn(baseline: seq<AlarmRule>, patches: seq<Patch>, k: nat)
    requires k < |patches|
  {
    Fits(LaidRules(baseline, patches[..k]), patches[k])
  }

  /** The inner loop: one patch over all its targets. Each target is visited once, with the values it had. */
  method LayPatch(rules: seq<AlarmRule>, patch: Patch, name: nat) returns (after: seq<AlarmRule>, issues: seq<Issue>)
    ensures |after| == |rules| && forall i :: 0 <= i < |rules| ==> after[i] == OnePatch(rules[i], patch)
    ensures issues == [] <==> Fits(rules, patch)
  {
    after, issues := rules, [];
    var targets, changed := 0, false;
    for i := 0 to |rules|
      invariant |after| == |rules|
      invariant forall k :: 0 <= k < i ==> after[k] == OnePatch(rules[k], patch)
      invariant forall k :: i <= k < |rules| ==> after[k] == rules[k]
      invariant targets == 0 <==> forall k :: 0 <= k < i ==> !Aims(patch, rules[k])
      invariant issues == [] <==> forall k :: 0 <= k < i && Aims(patch, rules[k]) ==>
          ValidRule(PatchRule(rules[k], patch))
      invariant issues == [] ==> (changed <==> exists k :: 0 <= k < i && Aims(patch, rules[k])
                                                      && Matters(rules[k], PatchRule(rules[k], patch)))
    {
      var rule := rules[i];
      if !Aims(patch, rule) {
        continue;
      }
      targets := targets + 1;
      var patched := PatchRule(rule, patch);
      if !ValidRule(patched) {
        issues := issues + [BrokenRule(name, i)];
        continue;
      }
      if !SameRule(rule, patched) && (rule.enabled || patched.enabled) {
        changed := true;
      }
      after := after[i := patched];
    }
    if targets == 0 {
      issues := [NoTarget(name)];
    } else if !changed && issues == [] {
      issues := [NothingChanged(name)];
    }
  }

  method ApplyPatches(baseline: seq<AlarmRule>, patches: seq<Patch>) returns (outcome: Outcome)
    ensures outcome.Accepted? <==> forall k :: 0 <= k < |patches| ==> FitsInTurn(baseline, patches, k)
    ensures outcome.Accepted? ==> outcome.rules == LaidRules(baseline, patches)
    ensures outcome.Refused? ==> outcome.issues != []
  {
    var rules, issues := baseline, [];
    for n := 0 to |patches|
      invariant rules == LaidRules(baseline, patches[..n])
      invariant issues == [] <==> forall k :: 0 <= k < n ==> FitsInTurn(baseline, patches, k)
    {
      hide Fits;
      assert patches[..n + 1][..n] == patches[..n];
      var after, found := LayPatch(rules, patches[n], n);
      assert found == [] <==> FitsInTurn(baseline, patches, n);
      assert issues + found == [] <==> issues == [] && found == [];
      issues := issues + found;
      rules := after;
    }
    assert patches[..|patches|] == patches;
    outcome := if issues == [] then Accepted(rules) else Refused(issues);
  }

  // ---------------------------------------------------------------- distinct patches do not meet

  ghost predicate DistinctPatches(patches: seq<Patch>) {
    forall i, j :: 0 <= i < j < |patches| ==>
      patches[i].metricKey != patches[j].metricKey || patches[i].mode != patches[j].mode
  }

  lemma LaidKeepsKey(rule: AlarmRule, patches: seq<Patch>)
    ensures var after := Laid(rule, patches);
            after.deviceCode == rule.deviceCode && after.metricKey == rule.metricKey && after.mode == rule.mode
            && after.severity == rule.severity
    ensures ValidRule(rule) ==> ValidRule(Laid(rule, patches))
  {
    hide ValidRule;
  }

  /** A rule no patch aims at is left alone. */
  lemma {:induction false} LaidPasses(rule: AlarmRule, patches: seq<Patch>)
    requires forall k :: 0 <= k < |patches| ==> !Aims(patches[k], rule)
    ensures Laid(rule, patches) == rule
  {
    if patches != [] {
      LaidPasses(rule, patches[..|patches| - 1]);
    }
  }

  /** At most one patch aims at a rule, so the rule ends as its baseline under that one patch. */
  lemma {:induction false} LaidOnce(rule: AlarmRule, patches: seq<Patch>, k: nat)
    requires DistinctPatches(patches) && k < |patches| && Aims(patches[k], rule)
    ensures Laid(rule, patches) == OnePatch(rule, patches[k])
  {
    hide ValidRule;
    var n := |patches| - 1;
    if k == n {
      LaidPasses(rule, patches[..n]);
    } else {
      LaidOnce(rule, patches[..n], k);
      assert !Aims(patches[n], rule);
    }
  }

  /** What a patch finds is what the snapshot holds: the patches before it aim elsewhere. */
  lemma FitsTheSnapshot(baseline: seq<AlarmRule>, patches: seq<Patch>, k: nat)
    requires DistinctPatches(patches) && k < |patches|
    ensures FitsInTurn(baseline, patches, k) <==> Fits(baseline, patches[k])
  {
    hide ValidRule, PatchRule, Matters;
    var rules := LaidRules(baseline, patches[..k]);
    forall i | 0 <= i < |baseline|
      ensures Aims(patches[k], rules[i]) <==> Aims(patches[k], baseline[i])
      ensures Aims(patches[k], baseline[i]) ==> rules[i] == baseline[i]
    {
      LaidKeepsKey(baseline[i], patches[..k]);
      if Aims(patches[k], baseline[i]) {
        LaidPasses(baseline[i], patches[..k]);
      }
    }
  }

  /** The one patch aimed at a rule, if any. */
  ghost predicate PatchedBy(before: AlarmRule, after: AlarmRule, patches: seq<Patch>) {
    || (after == before && forall k :: 0 <= k < |patches| ==> !Aims(patches[k], before))
    || (exists k :: 0 <= k < |patches| && Aims(patches[k], before) && after == PatchRule(before, patches[k]))
  }

  /**
   Success means: every patch fits the snapshot on its own; the rules are the same keys in the same order; each
   is its baseline under the one patch aimed at it, or untouched; and valid rules are still valid.
   */
  lemma SuccessMeans(baseline: seq<AlarmRule>, patches: seq<Patch>)
    requires DistinctPatches(patches) && forall i :: 0 <= i < |baseline| ==> ValidRule(baseline[i])
    ensures (forall k :: 0 <= k < |patches| ==> FitsInTurn(baseline, patches, k))
            <==> forall k :: 0 <= k < |patches| ==> Fits(baseline, patches[k])
    ensures (forall k :: 0 <= k < |patches| ==> FitsInTurn(baseline, patches, k)) ==>
              forall i :: 0 <= i < |baseline| ==>
                var after := LaidRules(baseline, patches)[i];
                && after.deviceCode == baseline[i].deviceCode && after.metricKey == baseline[i].metricKey
                && after.mode == baseline[i].mode && ValidRule(after)
                && PatchedBy(baseline[i], after, patches)
  {
    hide ValidRule, PatchRule, Matters, FitsInTurn;
    forall k | 0 <= k < |patches| ensures FitsInTurn(baseline, patches, k) <==> Fits(baseline, patches[k]) {
      FitsTheSnapshot(baseline, patches, k);
    }
    if forall k :: 0 <= k < |patches| ==> FitsInTurn(baseline, patches, k) {
      forall i | 0 <= i < |baseline|
        ensures var after := LaidRules(baseline, patches)[i];
                && after.deviceCode == baseline[i].deviceCode && after.metricKey == baseline[i].metricKey
                && after.mode == baseline[i].mode && ValidRule(after) && PatchedBy(baseline[i], after, patches)
      {
        var rule := baseline[i];
        LaidKeepsKey(rule, patches);
        if k :| 0 <= k < |patches| && Aims(patches[k], rule) {
          LaidOnce(rule, patches, k);
          assert Fits(baseline, patches[k]);
        } else {
          LaidPasses(rule, patches);
        }
      }
    }
  }

  // ---------------------------------------------------------------- the report of what changed

  const SLASH := '/'

  function KeyText(rule: AlarmRule): string {
    rule.deviceCode + [SLASH] + rule.metricKey + [SLASH] + ModeText(rule.mode)
  }

  /** The text key tells rules apart even if a metric name contains the slash: device codes and modes never do. */
  lemma KeyTextIsInjective(a: AlarmRule, b: AlarmRule)
    requires SLASH !in a.deviceCode && SLASH !in b.deviceCode && KeyText(a) == KeyText(b)
    ensures a.deviceCode == b.deviceCode && a.metricKey == b.metricKey && a.mode == b.mode
  {
    hide ModeText;
    assert KeyText(a) == a.deviceCode + [SLASH] + (a.metricKey + [SLASH] + ModeText(a.mode));
    assert KeyText(b) == b.deviceCode + [SLASH] + (b.metricKey + [SLASH] + ModeText(b.mode));
    SplitAtFirst(SLASH, a.deviceCode, b.deviceCode, a.metricKey + [SLASH] + ModeText(a.mode),
                 b.metricKey + [SLASH] + ModeText(b.mode));
    ModeTextIsPlain(a.mode);
    ModeTextIsPlain(b.mode);
    SplitAtLast(SLASH, a.metricKey, b.metricKey, ModeText(a.mode), ModeText(b.mode));
    ModeTextIsInjective(a.mode, b.mode);
  }

  datatype ChangedRule = ChangedRule(before: AlarmRule, after: AlarmRule)

  function ByKey(rules: seq<AlarmRule>): map<string, AlarmRule> {
    if rules == [] then map[]
    else ByKey(rules[..|rules| - 1])[KeyText(rules[|rules| - 1]) := rules[|rules| - 1]]
  }

  predicate Reported(rule: AlarmRule, byKey: map<string, AlarmRule>) {
    KeyText(rule) in byKey && Matters(rule, byKey[KeyText(rule)])
  }

  function Collected(baseline: seq<AlarmRule>, byKey: map<string, AlarmRule>): seq<ChangedRule> {
    if baseline == [] then []
    else
      var last := baseline[|baseline| - 1];
      Collected(baseline[..|baseline| - 1], byKey)
      + if Reported(last, byKey) then [ChangedRule(last, byKey[KeyText(last)])] else []
  }

  /** Order of the report: device, then metric, then mode. */
  predicate KeyBefore(a: ChangedRule, b: ChangedRule) {
    if a.before.deviceCode != b.before.deviceCode then TextLe(a.before.deviceCode, b.before.deviceCode)
    else if a.before.metricKey != b.before.metricKey then TextLe(a.before.metricKey, b.before.metricKey)
    else TextLe(ModeText(a.before.mode), ModeText(b.before.mode))
  }

  method ChangedRulesOf(baseline: seq<AlarmRule>, patched: seq<AlarmRule>) returns (changed: seq<ChangedRule>)
    ensures changed == SortBy(Collected(baseline, ByKey(patched)), KeyBefore)
  {
    var patchedByKey: map<string, AlarmRule> := map[];
    for i := 0 to |patched|
      invariant patchedByKey == ByKey(patched[..i])
    {
      assert patched[..i + 1][..i] == patched[..i];
      patchedByKey := patchedByKey[KeyText(patched[i]) := patched[i]];
    }
    assert patched[..|patched|] == patched;
    changed := [];
    for i := 0 to |baseline|
      invariant changed == Collected(baseline[..i], patchedByKey)
    {
      assert baseline[..i + 1][..i] == baseline[..i];
      var rule := baseline[i];
      var key := KeyText(rule);
      if key !in patchedByKey || SameRule(rule, patchedByKey[key]) {
        continue;
      }
      if !rule.enabled && !patchedByKey[key].enabled {
        continue;
      }
      changed := changed + [ChangedRule(rule, patchedByKey[key])];
    }
    assert baseline[..|baseline|] == baseline;
    changed := SortBy(changed, KeyBefore);
  }

  /** A key names one rule: the device code has no slash and no two rules share device, metric and mode. */
  ghost predicate UniquelyKeyed(rules: seq<AlarmRule>) {
    && (forall i :: 0 <= i < |rules| ==> SLASH !in rules[i].deviceCode)
    && (forall i, j :: 0 <= i < j < |rules| ==>
          rules[i].deviceCode != rules[j].deviceCode || rules[i].metricKey != rules[j].metricKey
          || rules[i].mode != rules[j].mode)
  }

  lemma {:induction false} ByKeyFinds(rules: seq<AlarmRule>, i: nat)
    requires UniquelyKeyed(rules) && i < |rules|
    ensures KeyText(rules[i]) in ByKey(rules) && ByKey(rules)[KeyText(rules[i])] == rules[i]
  {
    hide KeyText;
    var n := |rules| - 1;
    if i < n {
      ByKeyFinds(rules[..n], i);
      if KeyText(rules[i]) == KeyText(rules[n]) {
        KeyTextIsInjective(rules[i], rules[n]);
        assert false;
      }
    }
  }

  lemma {:induction false} CollectedMembers(baseline: seq<AlarmRule>, byKey: map<string, AlarmRule>, c: ChangedRule)
    ensures c in Collected(baseline, byKey) <==>
            c.before in baseline && Reported(c.before, byKey) && c.after == byKey[KeyText(c.before)]
  {
    hide KeyText, Matters;
    if baseline != [] {
      var n := |baseline| - 1;
      CollectedMembers(baseline[..n], byKey, c);
      assert baseline == baseline[..n] + [baseline[n]];
    }
  }

  lemma KeyBeforeIsTotal()
    ensures TotalPreorder(KeyBefore)
  {
    hide TextLe, ModeText;
    TextLeIsTotalOrder();
  }

  lemma SameKeysText(a: AlarmRule, b: AlarmRule)
    requires a.deviceCode == b.deviceCode && a.metricKey == b.metricKey && a.mode == b.mode
    ensures KeyText(a) == KeyText(b)
  {
  }

  /** For two snapshots with the same keys in the same order the report is exactly the rules that matter. */
  lemma ReportIsExact(baseline: seq<AlarmRule>, patched: seq<AlarmRule>, c: ChangedRule)
    requires UniquelyKeyed(baseline) && |patched| == |baseline|
    requires forall i :: 0 <= i < |baseline| ==>
               patched[i].deviceCode == baseline[i].deviceCode && patched[i].metricKey == baseline[i].metricKey
               && patched[i].mode == baseline[i].mode
    ensures c in SortBy(Collected(baseline, ByKey(patched)), KeyBefore) <==>
            exists i :: 0 <= i < |baseline| && c == ChangedRule(baseline[i], patched[i])
              && Matters(baseline[i], patched[i])
  {
    hide Matters, KeyText, KeyBefore;
    KeyBeforeIsTotal();
    SortSorts(Collected(baseline, ByKey(patched)), KeyBefore);
    CollectedMembers(baseline, ByKey(patched), c);
    assert UniquelyKeyed(patched);
    forall i | 0 <= i < |baseline|
      ensures KeyText(baseline[i]) in ByKey(patched) && ByKey(patched)[KeyText(baseline[i])] == patched[i]
    {
      SameKeysText(baseline[i], patched[i]);
      ByKeyFinds(patched, i);
    }
    if c in Collected(baseline, ByKey(patched)) {
      var i :| 0 <= i < |baseline| && baseline[i] == c.before;
      assert c == ChangedRule(baseline[i], patched[i]);
    }
  }

  /**
   The two sides agree: after a success every patch is witnessed by an entry of the report, and every entry is a
   rule under the one patch aimed at it.
   */
  lemma ReportWitnessesPatches(baseline: seq<AlarmRule>, patches: seq<Patch>)
    requires UniquelyKeyed(baseline) && DistinctPatches(patches)
    requires forall i :: 0 <= i < |baseline| ==> ValidRule(baseline[i])
    requires forall k :: 0 <= k < |patches| ==> FitsInTurn(baseline, patches, k)
    ensures var report := SortBy(Collected(baseline, ByKey(LaidRules(baseline, patches))), KeyBefore);
            && (forall k :: 0 <= k < |patches| ==> Witnessed(report, patches[k]))
            && (forall c :: c in report ==> c.before in baseline && Stems(c, patches))
  {
    hide ValidRule, KeyBefore, ByKey, Collected, FitsInTurn, KeyText, SortBy;
    var patched := LaidRules(baseline, patches);
    var report := SortBy(Collected(baseline, ByKey(patched)), KeyBefore);
    SuccessMeans(baseline, patches);
    forall k | 0 <= k < |patches| ensures Witnessed(report, patches[k]) {
      assert Fits(baseline, patches[k]);
      var i :| 0 <= i < |baseline| && Aims(patches[k], baseline[i])
        && Matters(baseline[i], PatchRule(baseline[i], patches[k]));
      LaidOnce(baseline[i], patches, k);
      var c := ChangedRule(baseline[i], patched[i]);
      ReportIsExact(baseline, patched, c);
      assert c in report;
    }
    forall c | c in report ensures c.before in baseline && Stems(c, patches) {
      ReportIsExact(baseline, patched, c);
      var i :| 0 <= i < |baseline| && c == ChangedRule(baseline[i], patched[i]) && Matters(baseline[i], patched[i]);
      assert PatchedBy(baseline[i], patched[i], patches);
      assert patched[i] != baseline[i];
    }
  }

  ghost predicate Witnessed(report: seq<ChangedRule>, patch: Patch) {
    exists c :: c in report && Aims(patch, c.before) && c.after == PatchRule(c.before, patch)
  }

  ghost predicate Stems(c: ChangedRule, patches: seq<Patch>) {
    exists k :: 0 <= k < |patches| && Aims(patches[k], c.before) && c.after == PatchRule(c.before, patches[k])
  }
}
