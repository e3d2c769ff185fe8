/** Handing devices over: what a processor that takes them on restores from the table. */
module AlarmAdoption {
  import opened Wrappers
  import opened Sequences
  import opened AlarmEngine
  import opened AlarmTable
  import opened AlarmAgreement

  function RaisedBy(row: Row): MetricState {
    Raised(row.boundary, row.severity, row.threshold, row.raisedAt, row.mode)
  }

  function Restored(deviceCodes: set<string>, episodes: seq<Row>): Memory {
    if episodes == [] then map[]
    else
      var last := episodes[|episodes| - 1];
      var memory := Restored(deviceCodes, episodes[..|episodes| - 1]);
      if last.deviceCode in deviceCodes then SetSlot(memory, last.deviceCode, last.metricKey, RaisedBy(last))
      else memory
  }

  /** A processor that takes devices over forgets what it knew of them and restores their open episodes. */
  method Adopt(memory: Memory, deviceCodes: set<string>, episodes: seq<Row>) returns (adopted: Memory)
    ensures adopted == (memory - deviceCodes) + Restored(deviceCodes, episodes)
  {
    var restored: Memory := map[];
    for i := 0 to |episodes|
      invariant restored == Restored(deviceCodes, episodes[..i])
    {
      assert episodes[..i + 1][..i] == episodes[..i];
      var episode := episodes[i];
      if episode.deviceCode in deviceCodes {
        var device := if episode.deviceCode in restored then restored[episode.deviceCode] else map[];
        restored := restored[episode.deviceCode := device[episode.metricKey := RaisedBy(episode)]];
      }
    }
    assert episodes[..|episodes|] == episodes;
    adopted := (memory - deviceCodes) + restored;
  }

  predicate OfSlot(row: Row, d: string, m: string) {
    row.deviceCode == d && row.metricKey == m
  }

  ghost predicate Stems(episodes: seq<Row>, d: string, m: string, state: MetricState) {
    exists i :: 0 <= i < |episodes| && OfSlot(episodes[i], d, m) && state == RaisedBy(episodes[i])
  }

  lemma {:induction false} RestoredSlot(deviceCodes: set<string>, episodes: seq<Row>, d: string, m: string)
    ensures var state := SlotState(Restored(deviceCodes, episodes), d, m);
            if d in deviceCodes && exists i :: 0 <= i < |episodes| && OfSlot(episodes[i], d, m)
            then Stems(episodes, d, m, state) else state == IDLE
    ensures d !in deviceCodes ==> d !in Restored(deviceCodes, episodes)
  {
    if episodes != [] {
      var n := |episodes| - 1;
      var front := episodes[..n];
      RestoredSlot(deviceCodes, front, d, m);
      assert forall i :: 0 <= i < n ==> front[i] == episodes[i];
      SlotAfterSet(Restored(deviceCodes, front), episodes[n].deviceCode, episodes[n].metricKey,
                   RaisedBy(episodes[n]), d, m);
      assert Stems(front, d, m, SlotState(Restored(deviceCodes, front), d, m)) ==>
          Stems(episodes, d, m, SlotState(Restored(deviceCodes, front), d, m));
    }
  }

  /** What `LoadOpenAlarmEpisodes` promises of its result. */
  ghost predicate Loaded(table: Table, deviceCodes: set<string>, episodes: seq<Row>) {
    && (forall i :: 0 <= i < |episodes| ==>
          exists key :: key in table && table[key] == episodes[i] && Loads(table[key], Some(deviceCodes)))
    && (forall key :: key in table && Loads(table[key], Some(deviceCodes)) ==> table[key] in episodes)
  }

  /**
   Adoption brings back exactly the raised metrics of the former owner, pending violations start from nothing,
   and every other device is left alone.
   */
  lemma AdoptionRestores(
    iso: Stamp, owner: Memory, memory: Memory, table: Table, deviceCodes: set<string>, episodes: seq<Row>, d: string,
    m: string)
    requires Agrees(iso, owner, table) && Loaded(table, deviceCodes, episodes)
    ensures var adopted := (memory - deviceCodes) + Restored(deviceCodes, episodes);
            SlotState(adopted, d, m) ==
            if d !in deviceCodes then SlotState(memory, d, m)
            else if SlotState(owner, d, m).Raised? then SlotState(owner, d, m)
            else IDLE
  {
    hide EpisodeKey;
    var restored := Restored(deviceCodes, episodes);
    RestoredSlot(deviceCodes, episodes, d, m);
    if d in deviceCodes {
      assert SlotState((memory - deviceCodes) + restored, d, m) == SlotState(restored, d, m);
      var state := SlotState(owner, d, m);
      if state.Raised? {
        assert HasRow(iso, table, d, m, state);
        var key := EpisodeKey(iso, d, m, state.mode, state.raisedAt);
        assert Loads(table[key], Some(deviceCodes)) && table[key] in episodes;
      }
      forall i | 0 <= i < |episodes| && OfSlot(episodes[i], d, m) ensures state == RaisedBy(episodes[i]) {
        var key :| key in table && table[key] == episodes[i] && Loads(table[key], Some(deviceCodes));
        assert IsOpen(table, key);
      }
    }
  }

  /** Takes devices over from whoever the table agrees with. */
  method TakeOver(store: EpisodeTable, memory: Memory, deviceCodes: set<string>, ghost owner: Memory)
    returns (adopted: Memory)
    requires Agrees(store.iso, owner, store.rows)
    ensures forall d, m :: SlotState(adopted, d, m) ==
              if d !in deviceCodes then SlotState(memory, d, m)
              else if SlotState(owner, d, m).Raised? then SlotState(owner, d, m)
              else IDLE
  {
    hide Agrees, SlotState, Loads;
    var episodes, keys := store.LoadOpenAlarmEpisodes(Some(deviceCodes));
    adopted := Adopt(memory, deviceCodes, episodes);
    forall key | key in store.rows && Loads(store.rows[key], Some(deviceCodes)) ensures store.rows[key] in episodes {
      assert key in keys;
      var i :| 0 <= i < |keys| && keys[i] == key;
      assert episodes[i] == store.rows[key];
    }
    forall d, m ensures SlotState(adopted, d, m) ==
                        if d !in deviceCodes then SlotState(memory, d, m)
                        else if SlotState(owner, d, m).Raised? then SlotState(owner, d, m)
                        else IDLE {
      AdoptionRestores(store.iso, owner, memory, store.rows, deviceCodes, episodes, d, m);
    }
  }

  lemma AgreementIsAboutRaised(iso: Stamp, a: Memory, b: Memory, table: Table)
    requires Agrees(iso, a, table)
    requires forall d, m ::
               SlotState(b, d, m) == SlotState(a, d, m) || (SlotState(a, d, m).Quiet? && SlotState(b, d, m).Quiet?)
    ensures Agrees(iso, b, table)
  {
    hide SlotState, HasRow;
    forall key | IsOpen(table, key)
      ensures Repeats(table[key], SlotState(b, table[key].deviceCode, table[key].metricKey))
    {
      assert Repeats(table[key], SlotState(a, table[key].deviceCode, table[key].metricKey));
    }
    forall d, m | SlotState(b, d, m).Raised? ensures HasRow(iso, table, d, m, SlotState(b, d, m)) {
      assert SlotState(a, d, m).Raised?;
    }
  }

  /** Handing devices over to a processor that loads their open episodes keeps memory and table in agreement. */
  lemma HandOverAgrees(iso: Stamp, memory: Memory, table: Table, deviceCodes: set<string>, episodes: seq<Row>)
    requires Agrees(iso, memory, table) && Loaded(table, deviceCodes, episodes)
    ensures Agrees(iso, (memory - deviceCodes) + Restored(deviceCodes, episodes), table)
  {
    hide SlotState, Agrees, Loaded, Restored;
    var after := (memory - deviceCodes) + Restored(deviceCodes, episodes);
    forall d, m
      ensures SlotState(after, d, m) == SlotState(memory, d, m)
              || (SlotState(memory, d, m).Quiet? && SlotState(after, d, m).Quiet?)
    {
      AdoptionRestores(iso, memory, memory, table, deviceCodes, episodes, d, m);
    }
    AgreementIsAboutRaised(iso, memory, after, table);
  }
}
