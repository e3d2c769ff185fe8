/** One relay at work: its pass over the queue, statement by statement, as a run of the protocol's moves. */
module OutboxRelay {
  import opened Wrappers
  import opened Outbox

  lemma OneMore(schema: Schema, w: World, moves: seq<Move>, m: Move)
    requires AllLegal(schema, w, moves) && Legal(Run(schema, w, moves), m)
    ensures Run(schema, w, moves + [m]) == Next(schema, Run(schema, w, moves), m)
    ensures AllLegal(schema, w, moves + [m])
  {
    hide Legal, Next;
    var more := moves + [m];
    assert more[..|moves|] == moves;
    forall i | 0 <= i < |more| ensures Legal(Run(schema, w, more[..i]), more[i]) {
      if i < |moves| {
        assert more[..i] == moves[..i];
      }
    }
  }

  /** The loop that sorts claimed rows into messages and broken rows. */
  method SortRows(schema: Schema, batch: map<RowId, OutboxRow>) returns (ids: set<RowId>, broken: set<RowId>)
    ensures ids == GoodIn(schema, batch) && broken == BrokenIn(schema, batch)
  {
    ids, broken := {}, {};
    var left := batch.Keys;
    while left != {}
      invariant left <= batch.Keys
      invariant forall id :: id in ids <==> id in batch && id !in left && Accepts(schema, batch[id])
      invariant forall id :: id in broken <==> id in batch && id !in left && !Accepts(schema, batch[id])
      decreases left
    {
      var id :| id in left;
      if schema(batch[id].topic, batch[id].payload) {
        ids := ids + {id};
      } else {
        broken := broken + {id};
      }
      left := left - {id};
    }
  }

  /** How a statement ends: it failed and had no effect, it failed after it was done, or it succeeded. */
  datatype Ending = FailedBefore | FailedAfter | Succeeded

  predicate Done(ending: Ending) {
    !ending.FailedBefore?
  }

  predicate Fine(ending: Ending) {
    ending.Succeeded?
  }

  /** What becomes of the calls of one pass, should it come to them; `delivered` is what a failing send gets through. */
  datatype Fate = Fate(
    claim: Ending,
    reject: Ending,
    deferBroken: Ending,
    send: bool,
    delivered: set<RowId>,
    mark: Ending,
    deferral: Ending)

  const SEND_ERROR := "send failed"

  // ---------------------------------------------------------------- what a pass should do

  /** The claimed rows as the claim left them. */
  function BatchOf(rows: Rows, claimed: set<RowId>, relay: RelayId): map<RowId, OutboxRow> {
    map id | id in rows && id in claimed :: Claimed(rows, claimed, relay)[id]
  }

  predicate RejectionsFail(schema: Schema, batch: map<RowId, OutboxRow>, fate: Fate) {
    BrokenIn(schema, batch) != {} && !(Fine(fate.reject) && Fine(fate.deferBroken))
  }

  /** The pass comes to sending: it holds rows to send and nothing has failed so far. */
  predicate ComesToSend(schema: Schema, batch: map<RowId, OutboxRow>, fate: Fate) {
    Fine(fate.claim) && !RejectionsFail(schema, batch, fate) && GoodIn(schema, batch) != {}
  }

  predicate Delivers(fate: Fate) {
    fate.send && Fine(fate.mark)
  }

  function RejectionMoves(relay: RelayId, now: int, reject: Ending, deferBroken: Ending): seq<Move> {
    [RejectBroken(relay, Done(reject), Fine(reject))]
    + if Fine(reject) then [DeferBroken(relay, now, Done(deferBroken), Fine(deferBroken))] else []
  }

  function SendingMoves(relay: RelayId, good: set<RowId>, now: int, nextAttemptAt: int, fate: Fate): seq<Move> {
    [Send(relay, if fate.send then good else fate.delivered * good, fate.send)]
    + (if fate.send then [Publish(relay, now, Done(fate.mark), Fine(fate.mark))] else [])
    + if Delivers(fate) then [] else [Defer(relay, SEND_ERROR, nextAttemptAt, Done(fate.deferral))]
  }

  class Relay {
    const relayId: RelayId
    const schema: Schema
    const batchSize: nat
    const table: OutboxTable
    var ticking: bool

    constructor (relayId: RelayId, schema: Schema, batchSize: nat, table: OutboxTable)
      ensures this.relayId == relayId && this.schema == schema && this.batchSize == batchSize && this.table == table
      ensures !ticking
    {
      this.relayId, this.schema, this.batchSize, this.table := relayId, schema, batchSize, table;
      ticking := false;
    }

    /** Two statements, no transaction around them: either may fail, and either may fail after it was done. */
    method RejectBrokenRows(
      batch: map<RowId, OutboxRow>, broken: set<RowId>, now: int, fate: Fate, ghost w: World, ghost before: seq<Move>)
      returns (ok: bool, ghost after: World, ghost moves: seq<Move>)
      requires broken == BrokenIn(schema, batch)
      requires AllLegal(schema, w, before) && Run(schema, w, before).rows == table.rows
      requires PhaseOf(Run(schema, w, before), relayId) == Holding(batch)
      modifies table
      ensures AllLegal(schema, w, moves) && after == Run(schema, w, moves) && after.rows == table.rows
      ensures ok <==> Fine(fate.reject) && Fine(fate.deferBroken)
      ensures moves == before + RejectionMoves(relayId, now, fate.reject, fate.deferBroken)
      ensures ok ==> table.rows == Rejecting(schema, old(table.rows), batch, now)
      ensures table.rows.Keys == old(table.rows).Keys
      ensures PhaseOf(after, relayId) ==
              if ok && GoodIn(schema, batch) != {} then Sending(GoodIn(schema, batch)) else Idle
    {
      hide Choice, Run, AllLegal, GoodIn, MarkFailed, MarkRejected;
      var rejected := set id | id in broken && batch[id].attempts >= FINAL_ATTEMPTS;
      var retried := set id | id in broken && batch[id].attempts < FINAL_ATTEMPTS;
      MarksKeepRows(table.rows, rejected, retried, now);
      if !fate.reject.FailedBefore? {
        table.MarkOutboxRejected(rejected, BROKEN_ERROR);
      }
      after, moves := Then(schema, w, before, RejectBroken(relayId, Done(fate.reject), Fine(fate.reject)));
      ok := fate.reject.Succeeded?;
      if !ok {
        return;
      }
      if !fate.deferBroken.FailedBefore? {
        table.MarkOutboxFailed(retried, BROKEN_ERROR, now + BROKEN_DELAY_MS);
      }
      after, moves := Then(schema, w, moves,
        DeferBroken(relayId, now, Done(fate.deferBroken), Fine(fate.deferBroken)));
      ok := fate.deferBroken.Succeeded?;
    }

    /** A batch without broken rows passes both steps untouched. */
    ghost method PassUnbroken(batch: map<RowId, OutboxRow>, now: int, w: World, before: seq<Move>)
      returns (after: World, moves: seq<Move>)
      requires BrokenIn(schema, batch) == {}
      requires AllLegal(schema, w, before) && PhaseOf(Run(schema, w, before), relayId) == Holding(batch)
      ensures AllLegal(schema, w, moves) && after == Run(schema, w, moves)
      ensures moves == before + RejectionMoves(relayId, now, Succeeded, Succeeded)
      ensures after.rows == Run(schema, w, before).rows
      ensures PhaseOf(after, relayId) == if GoodIn(schema, batch) != {} then Sending(GoodIn(schema, batch)) else Idle
    {
      hide Choice, Run, AllLegal, BrokenIn, GoodIn, MarkFailed, MarkRejected;
      NothingBroken(schema, Run(schema, w, before).rows, batch, now);
      after, moves := Then(schema, w, before, RejectBroken(relayId, true, true));
      after, moves := Then(schema, w, moves, DeferBroken(relayId, now, true, true));
    }

    /** The first half of a pass: claim, and the broken rows of the batch. */
    method ClaimBatch(now: int, held: set<RowId>, fate: Fate, ghost w: World)
      returns (ok: bool, batch: map<RowId, OutboxRow>, ids: set<RowId>, ghost claimed: set<RowId>, ghost after: World,
               ghost moves: seq<Move>)
      requires w.rows == table.rows && PhaseOf(w, relayId).Idle?
      modifies table
      ensures Done(fate.claim) ==> Choice(old(table.rows), now, batchSize, held, claimed)
      ensures AllLegal(schema, w, moves) && after == Run(schema, w, moves) && after.rows == table.rows
      ensures moves == ClaimingMoves(schema, old(table.rows), relayId, claimed, now, batchSize, held, fate)
      ensures var taken := BatchOf(old(table.rows), claimed, relayId);
              && (ok <==> Fine(fate.claim) && !RejectionsFail(schema, taken, fate))
              && (ok ==> batch == taken && ids == GoodIn(schema, taken))
              && PhaseOf(after, relayId) == (if ComesToSend(schema, taken, fate) then Sending(ids) else Idle)
              && (forall id :: id in taken ==> taken[id].attempts >= 1)
      ensures fate.claim.FailedBefore? ==> table.rows == old(table.rows)
      ensures table.rows.Keys == old(table.rows).Keys
    {
      hide Choice, Run, AllLegal, Claimed, Rejecting, BrokenIn, RejectionMoves;
      ids, batch, moves, after, claimed := {}, map[], [], w, {};
      NoMoves(schema, w);
      KeysClaimed(w.rows, claimed, relayId);
      AttemptsCounted(w.rows, claimed, relayId);
      ok := fate.claim.Succeeded?;
      if fate.claim.FailedBefore? {
        return;
      }
      var taken := table.ClaimOutbox(relayId, batchSize, now, held);
      claimed := taken;
      KeysClaimed(w.rows, claimed, relayId);
      AttemptsCounted(w.rows, claimed, relayId);
      batch := map id | id in table.rows && id in taken :: table.rows[id];
      assert batch == BatchOf(w.rows, claimed, relayId);
      after, moves := Then(schema, w, moves, Claim(relayId, claimed, now, batchSize, held));
      if !ok {
        after, moves := Then(schema, w, moves, Crash(relayId));
        return;
      }
      var broken;
      ids, broken := SortRows(schema, batch);
      if broken != {} {
        ok, after, moves := RejectBrokenRows(batch, broken, now, fate, w, moves);
      } else {
        after, moves := PassUnbroken(batch, now, w, moves);
      }
    }

    /**
     One pass. Which of its calls fail, before or after they were done, is the pass's fate; whatever it is, the pass is
     a run of legal moves of the protocol that leaves the relay idle. It sends all accepted rows it claimed, once,
     unless the claim or a rejection failed; it marks and counts them if send and mark succeed, and defers them by the
     delay of their attempts otherwise. It throws exactly if a call failed that nothing makes good.
     */
    method Tick(connected: bool, now: int, held: set<RowId>, fate: Fate, ghost w: World)
      returns (published: nat, threw: bool, ghost claimed: set<RowId>, ghost after: World, ghost moves: seq<Move>)
      requires w.rows == table.rows && PhaseOf(w, relayId).Idle?
      modifies this, table
      ensures AllLegal(schema, w, moves) && after == Run(schema, w, moves)
      ensures after.rows == table.rows && PhaseOf(after, relayId).Idle? && ticking == old(ticking)
      ensures ticking || !connected ==>
                table.rows == old(table.rows) && moves == [] && published == 0 && !threw
      ensures !ticking && connected ==>
                var batch := BatchOf(old(table.rows), claimed, relayId);
                var good := GoodIn(schema, batch);
                var sends := ComesToSend(schema, batch, fate);
                && (Done(fate.claim) ==> Choice(old(table.rows), now, batchSize, held, claimed))
                && published == (if sends && Delivers(fate) then |good| else 0)
                && (threw <==>
                      !Fine(fate.claim) || RejectionsFail(schema, batch, fate)
                      || (sends && !Delivers(fate) && !Fine(fate.deferral)))
                && var claiming :=
                     ClaimingMoves(schema, old(table.rows), relayId, claimed, now, batchSize, held, fate);
                   if !sends then moves == claiming
                   else
                     exists id :: id in batch
                       && var nextAttemptAt := now + RetryDelayMs(batch[id].attempts);
                          && moves == claiming + SendingMoves(relayId, good, now, nextAttemptAt, fate)
                          && Settled(table.rows, good, now, nextAttemptAt, fate)
                          && (fate.send ==> good <= after.sent)
    {
      hide Choice, Run, AllLegal, Claimed, GoodIn, ComesToSend, ClaimingMoves, SendingMoves, RejectionsFail, Settled,
          Delivers;
      moves, after, published, threw, claimed := [], w, 0, false, {};
      NoMoves(schema, w);
      if ticking || !connected {
        return;
      }
      ticking := true;
      var ok, batch, ids;
      ok, batch, ids, claimed, after, moves := ClaimBatch(now, held, fate, w);
      SendsIffSome(schema, BatchOf(w.rows, claimed, relayId), fate);
      threw := !ok;
      if ok && ids != {} {
        ghost var claiming := moves;
        var first :| first in batch;
        published, threw, after, moves := SendMessages(ids, batch[first].attempts, now, fate, w, moves);
        assert moves == claiming + SendingMoves(relayId, ids, now, now + RetryDelayMs(batch[first].attempts), fate);
      }
      ticking := false;
    }

    /** A send or a mark that fails defers the rows; if that fails too, the pass ends with an exception. */
    method SendMessages(
      ids: set<RowId>, attempts: nat, now: int, fate: Fate, ghost w: World, ghost before: seq<Move>)
      returns (published: nat, threw: bool, ghost after: World, ghost moves: seq<Move>)
      requires AllLegal(schema, w, before) && Run(schema, w, before).rows == table.rows
      requires PhaseOf(Run(schema, w, before), relayId) == Sending(ids) && ids <= table.rows.Keys && attempts >= 1
      modifies table
      ensures AllLegal(schema, w, moves) && after == Run(schema, w, moves)
      ensures after.rows == table.rows && PhaseOf(after, relayId).Idle?
      ensures moves == before + SendingMoves(relayId, ids, now, now + RetryDelayMs(attempts), fate)
      ensures published == if Delivers(fate) then |ids| else 0
      ensures threw <==> !Delivers(fate) && !Fine(fate.deferral)
      ensures Settled(table.rows, ids, now, now + RetryDelayMs(attempts), fate)
      ensures fate.send ==> ids <= after.sent
    {
      hide Choice, Run, AllLegal, RetryDelayMs, MarkPublished, MarkFailed, Settled;
      published, threw := 0, false;
      after, moves := Then(schema, w, before,
        Send(relayId, if fate.send then ids else fate.delivered * ids, fate.send));
      var sent := fate.send;
      if sent {
        sent, after, moves := MarkAll(ids, now, fate, w, moves);
      }
      if sent {
        published := |ids|;
      } else {
        threw, after, moves := DeferAll(ids, now + RetryDelayMs(attempts), fate, w, moves);
      }
      MarksSettle(old(table.rows), ids, now, now + RetryDelayMs(attempts), fate);
    }

    method MarkAll(ids: set<RowId>, now: int, fate: Fate, ghost w: World, ghost before: seq<Move>)
      returns (ok: bool, ghost after: World, ghost moves: seq<Move>)
      requires AllLegal(schema, w, before) && Run(schema, w, before).rows == table.rows
      requires PhaseOf(Run(schema, w, before), relayId) == SentAll(ids)
      modifies table
      ensures AllLegal(schema, w, moves) && after == Run(schema, w, moves) && after.rows == table.rows
      ensures ok == Fine(fate.mark) && moves == before + [Publish(relayId, now, Done(fate.mark), ok)]
      ensures table.rows == if Done(fate.mark) then MarkPublished(old(table.rows), ids, now) else old(table.rows)
      ensures after.sent == Run(schema, w, before).sent
      ensures PhaseOf(after, relayId) == if ok then Idle else SendFailed(ids)
    {
      hide Choice, Run, AllLegal, MarkPublished;
      if !fate.mark.FailedBefore? {
        table.MarkOutboxPublished(ids, now);
      }
      ok := fate.mark.Succeeded?;
      after, moves := Then(schema, w, before, Publish(relayId, now, Done(fate.mark), ok));
    }

    method DeferAll(ids: set<RowId>, nextAttemptAt: int, fate: Fate, ghost w: World, ghost before: seq<Move>)
      returns (threw: bool, ghost after: World, ghost moves: seq<Move>)
      requires AllLegal(schema, w, before) && Run(schema, w, before).rows == table.rows
      requires PhaseOf(Run(schema, w, before), relayId) == SendFailed(ids)
      modifies table
      ensures AllLegal(schema, w, moves) && after == Run(schema, w, moves) && after.rows == table.rows
      ensures threw == !Fine(fate.deferral)
      ensures moves == before + [Defer(relayId, SEND_ERROR, nextAttemptAt, Done(fate.deferral))]
      ensures table.rows ==
              if Done(fate.deferral) then MarkFailed(old(table.rows), ids, SEND_ERROR, nextAttemptAt)
              else old(table.rows)
      ensures after.sent == Run(schema, w, before).sent && PhaseOf(after, relayId).Idle?
    {
      hide Choice, Run, AllLegal, MarkFailed;
      if !fate.deferral.FailedBefore? {
        table.MarkOutboxFailed(ids, SEND_ERROR, nextAttemptAt);
      }
      threw := !fate.deferral.Succeeded?;
      after, moves := Then(schema, w, before, Defer(relayId, SEND_ERROR, nextAttemptAt, Done(fate.deferral)));
    }
  }

  /** The moves of a pass up to the point where it may send. */
  function ClaimingMoves(
    schema: Schema, rows: Rows, relay: RelayId, claimed: set<RowId>, now: int, limit: nat, held: set<RowId>, fate: Fate)
    : seq<Move>
  {
    if !Done(fate.claim) then []
    else
      [Claim(relay, claimed, now, limit, held)]
      + if !Fine(fate.claim) then [Crash(relay)]
        else if BrokenIn(schema, BatchOf(rows, claimed, relay)) == {}
        then RejectionMoves(relay, now, Succeeded, Succeeded)
        else RejectionMoves(relay, now, fate.reject, fate.deferBroken)
  }

  /** What the rows a pass came to send look like afterwards. */
  ghost predicate Settled(rows: Rows, good: set<RowId>, now: int, nextAttemptAt: int, fate: Fate) {
    forall id :: id in good ==>
      && id in rows
      && (fate.send && Done(fate.mark) ==> rows[id].publishedAt == Some(now))
      && (!Delivers(fate) && Done(fate.deferral) ==>
            rows[id].nextAttemptAt == nextAttemptAt && rows[id].lastError == Some(SEND_ERROR))
      && (Delivers(fate) || Done(fate.deferral) ==> rows[id].lockId == None)
  }

  lemma MarksSettle(rows: Rows, ids: set<RowId>, now: int, nextAttemptAt: int, fate: Fate)
    requires ids <= rows.Keys
    ensures var marked := if fate.send && Done(fate.mark) then MarkPublished(rows, ids, now) else rows;
            Settled(if !Delivers(fate) && Done(fate.deferral) then MarkFailed(marked, ids, SEND_ERROR, nextAttemptAt)
                    else marked, ids, now, nextAttemptAt, fate)
  {
  }

  lemma SendsIffSome(schema: Schema, batch: map<RowId, OutboxRow>, fate: Fate)
    ensures ComesToSend(schema, batch, fate) <==>
            Fine(fate.claim) && !RejectionsFail(schema, batch, fate) && GoodIn(schema, batch) != {}
    ensures GoodIn(schema, batch) != {} ==> exists id :: id in batch
    ensures GoodIn(schema, batch) <= batch.Keys
  {
    if GoodIn(schema, batch) != {} {
      var id :| id in GoodIn(schema, batch);
    }
  }

  /** The table after both statements. */
  function Rejecting(schema: Schema, rows: Rows, batch: map<RowId, OutboxRow>, now: int): Rows {
    MarkFailed(MarkRejected(rows, Hopeless(schema, batch), BROKEN_ERROR), Retried(schema, batch), BROKEN_ERROR,
               now + BROKEN_DELAY_MS)
  }

  lemma AttemptsCounted(rows: Rows, ids: set<RowId>, relay: RelayId)
    ensures forall id :: id in Claimed(rows, ids, relay) && id in ids ==> Claimed(rows, ids, relay)[id].attempts >= 1
  {
  }

  lemma MarksKeepRows(rows: Rows, rejected: set<RowId>, retried: set<RowId>, now: int)
    ensures MarkRejected(rows, rejected, BROKEN_ERROR).Keys == rows.Keys
    ensures MarkFailed(MarkRejected(rows, rejected, BROKEN_ERROR), retried, BROKEN_ERROR, now + BROKEN_DELAY_MS).Keys
            == rows.Keys
  {
  }

  lemma KeysClaimed(rows: Rows, ids: set<RowId>, relay: RelayId)
    ensures Claimed(rows, ids, relay).Keys == rows.Keys
  {
  }

  lemma NoMoves(schema: Schema, w: World)
    ensures Run(schema, w, []) == w && AllLegal(schema, w, [])
  {
  }

  lemma Then(schema: Schema, w: World, moves: seq<Move>, m: Move) returns (after: World, more: seq<Move>)
    requires AllLegal(schema, w, moves) && Legal(Run(schema, w, moves), m)
    ensures more == moves + [m] && AllLegal(schema, w, more)
    ensures after == Run(schema, w, more) == Next(schema, Run(schema, w, moves), m)
  {
    OneMore(schema, w, moves, m);
    more := moves + [m];
    after := Run(schema, w, more);
  }

  lemma NothingBroken(schema: Schema, rows: Rows, batch: map<RowId, OutboxRow>, now: int)
    requires BrokenIn(schema, batch) == {}
    ensures MarkRejected(rows, Hopeless(schema, batch), BROKEN_ERROR) == rows
    ensures MarkFailed(rows, Retried(schema, batch), BROKEN_ERROR, now + BROKEN_DELAY_MS) == rows
  {
  }
}
