/**
The queue of outgoing messages and the relays that empty it. Any number of relays may work at once, and any of
them may die between claiming rows, sending messages and marking the rows.
*/
module Outbox {
  import opened Wrappers

  type RowId = nat
  type RelayId = string

  datatype OutboxRow = OutboxRow(
    aggregateId: string,
    revision: nat,
    topic: string,
    msgKey: string,
    payload: string,
    attempts: nat,
    publishedAt: Option<int>,
    nextAttemptAt: int,
    finalRejected: bool,
    lockId: Option<RelayId>,
    lastError: Option<string>)

  type Rows = map<RowId, OutboxRow>

  /** Does the schema of the row's topic accept its payload? The same answer for every relay and every time. */
  type Schema = (string, string) -> bool

  const FINAL_ATTEMPTS: nat := 3
  const BROKEN_DELAY_MS := 60_000
  const BROKEN_ERROR := "not accepted by the schema of its topic"

  predicate Accepts(schema: Schema, row: OutboxRow) {
    schema(row.topic, row.payload)
  }

  function Doubled(ms: int, times: nat): int {
    if times == 0 then ms else 2 * Doubled(ms, times - 1)
  }

  function RetryDelayMs(attempts: nat): int
    requires attempts >= 1
  {
    if Doubled(500, attempts - 1) <= 60_000 then Doubled(500, attempts - 1) else 60_000
  }

  /** The delay starts at half a second, never shrinks and stops at a minute, from the eighth attempt on. */
  lemma {:induction false} DelayGrowsToAMinute(attempts: nat)
    requires attempts >= 1
    ensures 500 <= RetryDelayMs(attempts) <= RetryDelayMs(attempts + 1) <= 60_000
    ensures RetryDelayMs(attempts) == 60_000 <==> attempts >= 8
    ensures attempts < 7 ==> RetryDelayMs(attempts + 1) == 2 * RetryDelayMs(attempts)
  {
    if attempts > 1 {
      DelayGrowsToAMinute(attempts - 1);
    }
    assert Doubled(500, 0) == 500 && Doubled(500, 1) == 1_000 && Doubled(500, 2) == 2_000;
    assert Doubled(500, 3) == 4_000 && Doubled(500, 4) == 8_000 && Doubled(500, 5) == 16_000;
    assert Doubled(500, 6) == 32_000 && Doubled(500, 7) == 64_000;
  }

  // ---------------------------------------------------------------- the statements

  predicate Waits(row: OutboxRow) {
    row.publishedAt.None? && !row.finalRejected
  }

  /** The guard of the claim. It does not ask who else holds the row. */
  predicate Due(row: OutboxRow, now: int) {
    Waits(row) && row.nextAttemptAt <= now
  }

  /** The unique key of the queue. */
  predicate SameRevision(a: OutboxRow, b: OutboxRow) {
    a.aggregateId == b.aggregateId && a.revision == b.revision
  }

  function Enqueue(rows: Rows, id: RowId, row: OutboxRow): Rows {
    if exists other :: other in rows && SameRevision(rows[other], row)
    then rows
    else rows[id := row]
  }

  /** A row is queued exactly if its aggregate has no row of this revision; its other revisions do not matter. */
  lemma QueuedIffRevisionIsNew(rows: Rows, id: RowId, row: OutboxRow)
    requires id !in rows
    ensures var after := Enqueue(rows, id, row);
            && (id in after <==>
                  forall other :: other in rows && rows[other].aggregateId == row.aggregateId ==>
                    rows[other].revision != row.revision)
            && (id in after ==> after == rows[id := row]) && (id !in after ==> after == rows)
  {
    assert forall other :: other in rows ==>
        (SameRevision(rows[other], row) <==>
         rows[other].aggregateId == row.aggregateId && rows[other].revision == row.revision);
  }

  function Claimed(rows: Rows, ids: set<RowId>, relay: RelayId): Rows {
    map id | id in rows ::
      if id in ids then rows[id].(lockId := Some(relay), attempts := rows[id].attempts + 1) else rows[id]
  }

  function MarkPublished(rows: Rows, ids: set<RowId>, at: int): Rows {
    map id | id in rows :: if id in ids then rows[id].(publishedAt := Some(at), lockId := None) else rows[id]
  }

  function MarkFailed(rows: Rows, ids: set<RowId>, error: string, nextAttemptAt: int): Rows {
    map id | id in rows ::
      if id in ids then rows[id].(lastError := Some(error), nextAttemptAt := nextAttemptAt, lockId := None)
      else rows[id]
  }

  function MarkRejected(rows: Rows, ids: set<RowId>, error: string): Rows {
    map id | id in rows ::
      if id in ids then rows[id].(finalRejected := true, lastError := Some(error), lockId := None) else rows[id]
  }

  /** The ids a claim takes: due, not held by another transaction just now, lowest first, at most `limit`. */
  ghost predicate Choice(rows: Rows, now: int, limit: nat, held: set<RowId>, ids: set<RowId>) {
    && (forall id :: id in ids ==> id in rows && Due(rows[id], now) && id !in held)
    && |ids| <= limit
    && (forall id, other :: id in rows && Due(rows[id], now) && id !in held && id !in ids ==>
          |ids| == limit && (other in ids ==> other < id))
  }

  /** The claim leaves no freedom: what is due, not held and lowest is one set of rows. */
  lemma ChoiceIsUnique(rows: Rows, now: int, limit: nat, held: set<RowId>, a: set<RowId>, b: set<RowId>)
    requires Choice(rows, now, limit, held, a) && Choice(rows, now, limit, held, b)
    ensures a == b
  {
    forall id ensures !(id in a && id !in b) && !(id in b && id !in a) {
      TakesNoMore(rows, now, limit, held, a, b, id);
      TakesNoMore(rows, now, limit, held, b, a, id);
    }
  }

  /** A row one choice leaves out lies above all it takes, so another choice that takes it takes all the others too. */
  lemma TakesNoMore(rows: Rows, now: int, limit: nat, held: set<RowId>, a: set<RowId>, b: set<RowId>, id: RowId)
    requires Choice(rows, now, limit, held, a) && Choice(rows, now, limit, held, b)
    ensures !(id in a && id !in b)
  {
    if id in a && id !in b {
      assert |b| == limit >= |a|;
      assert forall other :: other in b ==> other < id;
      assert forall other :: other in b && other !in a ==> id < other;
      SubsetCount(b, a - {id});
    }
  }

  lemma SubsetCount(a: set<RowId>, b: set<RowId>)
    requires a <= b
    ensures |a| <= |b|
  {
    assert b == a + (b - a);
  }

  class OutboxTable {
    var rows: Rows

    constructor ()
      ensures rows == map[]
    {
      rows := map[];
    }

    method EnqueueOutbox(id: RowId, row: OutboxRow) returns (queued: bool)
      requires id !in rows
      modifies this
      ensures rows == Enqueue(old(rows), id, row)
      ensures queued <==> id in rows
    {
      queued := !exists other | other in rows :: SameRevision(rows[other], row);
      if queued {
        rows := rows[id := row];
      }
    }

    method ClaimOutbox(relay: RelayId, limit: nat, now: int, held: set<RowId>) returns (claimed: set<RowId>)
      modifies this
      ensures Choice(old(rows), now, limit, held, claimed)
      ensures rows == Claimed(old(rows), claimed, relay)
    {
      claimed := {};
      var left := set id | id in rows && Due(rows[id], now) && id !in held;
      while left != {} && |claimed| < limit
        invariant forall id :: id in claimed || id in left <==> id in rows && Due(rows[id], now) && id !in held
        invariant rows == old(rows)
        invariant |claimed| <= limit && claimed !! left
        invariant forall id, other :: id in left && other in claimed ==> other < id
        decreases left
      {
        var lowest := Lowest(left);
        claimed := claimed + {lowest};
        left := left - {lowest};
      }
      rows := map id | id in rows ::
        if id in claimed then rows[id].(lockId := Some(relay), attempts := rows[id].attempts + 1) else rows[id];
    }

    method MarkOutboxPublished(ids: set<RowId>, at: int)
      modifies this
      ensures rows == MarkPublished(old(rows), ids, at)
    {
      rows := map id | id in rows :: if id in ids then rows[id].(publishedAt := Some(at), lockId := None) else rows[id];
    }

    method MarkOutboxFailed(ids: set<RowId>, error: string, nextAttemptAt: int)
      modifies this
      ensures rows == MarkFailed(old(rows), ids, error, nextAttemptAt)
    {
      rows := map id | id in rows ::
        if id in ids then rows[id].(lastError := Some(error), nextAttemptAt := nextAttemptAt, lockId := None)
        else rows[id];
    }

    method MarkOutboxRejected(ids: set<RowId>, error: string)
      modifies this
      ensures rows == MarkRejected(old(rows), ids, error)
    {
      rows := map id | id in rows ::
        if id in ids then rows[id].(finalRejected := true, lastError := Some(error), lockId := None) else rows[id];
    }
  }

  method Lowest(ids: set<RowId>) returns (lowest: RowId)
    requires ids != {}
    ensures lowest in ids && forall id :: id in ids ==> lowest <= id
  {
    lowest :| lowest in ids;
    var left := ids - {lowest};
    while left != {}
      invariant lowest in ids && left <= ids
      invariant forall id :: id in ids && id !in left ==> lowest <= id
      decreases left
    {
      var id :| id in left;
      if id < lowest {
        lowest := id;
      }
      left := left - {id};
    }
  }

  // ---------------------------------------------------------------- relays at work

  /**
   Where a relay stands in its pass: what it claimed, and again once its hopeless rows are rejected; what it is about
   to send, what it sent, what it failed to send.
   */
  datatype Phase =
    | Idle
    | Holding(batch: map<RowId, OutboxRow>)
    | Deferring(batch: map<RowId, OutboxRow>)
    | Sending(ids: set<RowId>)
    | SentAll(ids: set<RowId>)
    | SendFailed(ids: set<RowId>)

  datatype World = World(rows: Rows, sent: set<RowId>, relays: map<RelayId, Phase>)

  /**
   What relays do, one statement or one send at a time. A statement may fail for the relay after it was done (`done`
   but not `ok`), and a send that fails may have delivered anything.
   */
  datatype Move =
    | Queue(id: RowId, row: OutboxRow)
    | Claim(relay: RelayId, ids: set<RowId>, now: int, limit: nat, held: set<RowId>)
    | RejectBroken(relay: RelayId, done: bool, ok: bool)
    | DeferBroken(relay: RelayId, now: int, done: bool, ok: bool)
    | Send(relay: RelayId, delivered: set<RowId>, ok: bool)
    | Publish(relay: RelayId, now: int, done: bool, ok: bool)
    | Defer(relay: RelayId, error: string, nextAttemptAt: int, done: bool)
    | Crash(relay: RelayId)

  function PhaseOf(w: World, relay: RelayId): Phase {
    if relay in w.relays then w.relays[relay] else Idle
  }

  function BrokenIn(schema: Schema, batch: map<RowId, OutboxRow>): set<RowId> {
    set id | id in batch && !Accepts(schema, batch[id])
  }

  function GoodIn(schema: Schema, batch: map<RowId, OutboxRow>): set<RowId> {
    set id | id in batch && Accepts(schema, batch[id])
  }

  /** Broken rows of the batch whose attempts are used up, and those that get another one. */
  function Hopeless(schema: Schema, batch: map<RowId, OutboxRow>): set<RowId> {
    set id | id in BrokenIn(schema, batch) && batch[id].attempts >= FINAL_ATTEMPTS
  }

  function Retried(schema: Schema, batch: map<RowId, OutboxRow>): set<RowId> {
    set id | id in BrokenIn(schema, batch) && batch[id].attempts < FINAL_ATTEMPTS
  }

  /** A new row has never been tried, sent or rejected. */
  predicate IsNew(row: OutboxRow) {
    row.attempts == 0 && row.publishedAt.None? && !row.finalRejected
  }

  ghost predicate Legal(w: World, m: Move) {
    match m
    case Queue(id, row) => id !in w.rows && id !in w.sent && IsNew(row)
    case Claim(relay, ids, now, limit, held) => PhaseOf(w, relay).Idle? && Choice(w.rows, now, limit, held, ids)
    case RejectBroken(relay, done, ok) => PhaseOf(w, relay).Holding? && (ok ==> done)
    case DeferBroken(relay, _, done, ok) => PhaseOf(w, relay).Deferring? && (ok ==> done)
    case Send(relay, delivered, ok) =>
      PhaseOf(w, relay).Sending? && delivered <= PhaseOf(w, relay).ids && (ok ==> delivered == PhaseOf(w, relay).ids)
    case Publish(relay, _, done, ok) => PhaseOf(w, relay).SentAll? && (ok ==> done)
    case Defer(relay, _, _, _) => PhaseOf(w, relay).SendFailed?
    case Crash(_) => true
  }

  function Next(schema: Schema, w: World, m: Move): World {
    match m
    case Queue(id, row) => w.(rows := Enqueue(w.rows, id, row))
    case Claim(relay, ids, _, _, _) =>
      var rows := Claimed(w.rows, ids, relay);
      w.(rows := rows, relays := w.relays[relay := Holding(map id | id in rows && id in ids :: rows[id])])
    case RejectBroken(relay, done, ok) =>
      (match PhaseOf(w, relay)
       case Holding(batch) =>
         World(if done then MarkRejected(w.rows, Hopeless(schema, batch), BROKEN_ERROR) else w.rows, w.sent,
               w.relays[relay := if ok then Deferring(batch) else Idle])
       case _ => w)
    case DeferBroken(relay, now, done, ok) =>
      (match PhaseOf(w, relay)
       case Deferring(batch) =>
         World(if done then MarkFailed(w.rows, Retried(schema, batch), BROKEN_ERROR, now + BROKEN_DELAY_MS) else w.rows,
               w.sent,
               w.relays[relay := if ok && GoodIn(schema, batch) != {} then Sending(GoodIn(schema, batch)) else Idle])
       case _ => w)
    case Send(relay, delivered, ok) =>
      (match PhaseOf(w, relay)
       case Sending(ids) =>
         World(w.rows, w.sent + delivered, w.relays[relay := if ok then SentAll(ids) else SendFailed(ids)])
       case _ => w)
    case Publish(relay, now, done, ok) =>
      (match PhaseOf(w, relay)
       case SentAll(ids) =>
         World(if done then MarkPublished(w.rows, ids, now) else w.rows, w.sent,
               w.relays[relay := if ok then Idle else SendFailed(ids)])
       case _ => w)
    case Defer(relay, error, nextAttemptAt, done) =>
      (match PhaseOf(w, relay)
       case SendFailed(ids) =>
         World(if done then MarkFailed(w.rows, ids, error, nextAttemptAt) else w.rows, w.sent, w.relays[relay := Idle])
       case _ => w)
    case Crash(relay) => w.(relays := w.relays[relay := Idle])
  }

  /** How a row may move in one step, field by field. */
  ghost predicate RowMoves(schema: Schema, phase: Phase, id: RowId, row: OutboxRow, next: OutboxRow, m: Move) {
    match m
    case Claim(relay, ids, _, _, _) =>
      if id in ids then
        next == OutboxRow(row.aggregateId, row.revision, row.topic, row.msgKey, row.payload, 1 + row.attempts,
                          row.publishedAt, row.nextAttemptAt, row.finalRejected, Some(relay), row.lastError)
      else next == row
    case RejectBroken(_, done, _) =>
      if done && phase.Holding? && id in phase.batch && !schema(phase.batch[id].topic, phase.batch[id].payload)
         && phase.batch[id].attempts >= 3
      then next == row.(finalRejected := true, lockId := None, lastError := Some(BROKEN_ERROR))
      else next == row
    case DeferBroken(_, now, done, _) =>
      if done && phase.Deferring? && id in phase.batch && !schema(phase.batch[id].topic, phase.batch[id].payload)
         && phase.batch[id].attempts < 3
      then next == row.(nextAttemptAt := now + 60_000, lockId := None, lastError := Some(BROKEN_ERROR))
      else next == row
    case Publish(_, now, done, _) =>
      if done && phase.SentAll? && id in phase.ids then next == row.(publishedAt := Some(now), lockId := None)
      else next == row
    case Defer(_, error, nextAttemptAt, done) =>
      if done && phase.SendFailed? && id in phase.ids
      then next == row.(nextAttemptAt := nextAttemptAt, lockId := None, lastError := Some(error))
      else next == row
    case _ => next == row
  }

  function RelayOf(m: Move): RelayId {
    if m.Queue? then "" else m.relay
  }

  /** Every statement moves exactly the rows its relay holds for it, and only in the fields it is meant for. */
  lemma RowsMoveByTheTable(schema: Schema, w: World, m: Move, id: RowId)
    requires Legal(w, m) && id in w.rows
    ensures id in Next(schema, w, m).rows
    ensures RowMoves(schema, PhaseOf(w, RelayOf(m)), id, w.rows[id], Next(schema, w, m).rows[id], m)
  {
    hide Choice;
  }

  const NOTHING := World(map[], {}, map[])

  function Run(schema: Schema, w: World, moves: seq<Move>): World {
    if moves == [] then w else Next(schema, Run(schema, w, moves[..|moves| - 1]), moves[|moves| - 1])
  }

  ghost predicate AllLegal(schema: Schema, w: World, moves: seq<Move>) {
    forall i :: 0 <= i < |moves| ==> Legal(Run(schema, w, moves[..i]), moves[i])
  }

  // ---------------------------------------------------------------- safety

  /** What a row's marks say is true. */
  ghost predicate HonestRow(schema: Schema, sent: set<RowId>, id: RowId, row: OutboxRow) {
    && (row.publishedAt.Some? ==> id in sent)
    && (row.finalRejected ==> !Accepts(schema, row) && row.attempts >= FINAL_ATTEMPTS)
  }

  /** A relay holds what is in the table, perhaps with fewer attempts than by now. */
  ghost predicate HeldFrom(rows: Rows, batch: map<RowId, OutboxRow>) {
    forall id :: id in batch ==>
      id in rows && batch[id].topic == rows[id].topic && batch[id].payload == rows[id].payload
      && batch[id].attempts <= rows[id].attempts
  }

  ghost predicate Sendable(schema: Schema, rows: Rows, ids: set<RowId>) {
    forall id :: id in ids ==> id in rows && Accepts(schema, rows[id])
  }

  ghost predicate HonestPhase(schema: Schema, rows: Rows, sent: set<RowId>, phase: Phase) {
    match phase
    case Idle => true
    case Holding(batch) => HeldFrom(rows, batch)
    case Deferring(batch) => HeldFrom(rows, batch)
    case Sending(ids) => Sendable(schema, rows, ids)
    case SentAll(ids) => Sendable(schema, rows, ids) && ids <= sent
    case SendFailed(ids) => Sendable(schema, rows, ids)
  }

  ghost predicate Safe(schema: Schema, w: World) {
    && (forall id :: id in w.rows ==> HonestRow(schema, w.sent, id, w.rows[id]))
    && Sendable(schema, w.rows, w.sent)
    && (forall relay :: relay in w.relays ==> HonestPhase(schema, w.rows, w.sent, w.relays[relay]))
  }

  /** Rows stay, keep their message, and are never tried less often than before. */
  ghost predicate RowsGrow(before: Rows, after: Rows) {
    forall id :: id in before ==>
      id in after && after[id].topic == before[id].topic && after[id].payload == before[id].payload
      && before[id].attempts <= after[id].attempts
  }

  lemma PhasesStayHonest(schema: Schema, w: World, rows: Rows, sent: set<RowId>)
    requires Safe(schema, w) && RowsGrow(w.rows, rows) && w.sent <= sent
    ensures forall relay :: relay in w.relays ==> HonestPhase(schema, rows, sent, w.relays[relay])
    ensures Sendable(schema, rows, w.sent)
  {
    forall relay | relay in w.relays ensures HonestPhase(schema, rows, sent, w.relays[relay]) {
      assert HonestPhase(schema, w.rows, w.sent, w.relays[relay]);
    }
  }

  lemma QueueKeepsSafe(schema: Schema, w: World, m: Move)
    requires Safe(schema, w) && Legal(w, m) && m.Queue?
    ensures Safe(schema, Next(schema, w, m)) && RowsGrow(w.rows, Next(schema, w, m).rows)
  {
    hide HonestPhase;
    PhasesStayHonest(schema, w, Next(schema, w, m).rows, w.sent);
  }

  lemma ClaimKeepsSafe(schema: Schema, w: World, m: Move)
    requires Safe(schema, w) && Legal(w, m) && m.Claim?
    ensures Safe(schema, Next(schema, w, m)) && RowsGrow(w.rows, Next(schema, w, m).rows)
  {
    hide Choice;
    ChoiceIsFromTheTable(w, m);
    var after := Next(schema, w, m);
    PhasesStayHonest(schema, w, after.rows, w.sent);
    assert HeldFrom(after.rows, after.relays[m.relay].batch);
  }

  lemma RejectKeepsSafe(schema: Schema, w: World, m: Move)
    requires Safe(schema, w) && Legal(w, m) && m.RejectBroken?
    ensures Safe(schema, Next(schema, w, m)) && RowsGrow(w.rows, Next(schema, w, m).rows)
  {
    hide Choice;
    var batch := PhaseOf(w, m.relay).batch;
    assert HonestPhase(schema, w.rows, w.sent, w.relays[m.relay]);
    assert HeldFrom(w.rows, batch);
    var after := Next(schema, w, m);
    PhasesStayHonest(schema, w, after.rows, w.sent);
    forall id | id in after.rows ensures HonestRow(schema, after.sent, id, after.rows[id]) {
      assert HonestRow(schema, w.sent, id, w.rows[id]);
    }
    assert HeldFrom(after.rows, batch);
  }

  lemma DeferKeepsSafe(schema: Schema, w: World, m: Move)
    requires Safe(schema, w) && Legal(w, m) && m.DeferBroken?
    ensures Safe(schema, Next(schema, w, m)) && RowsGrow(w.rows, Next(schema, w, m).rows)
  {
    hide Choice;
    var batch := PhaseOf(w, m.relay).batch;
    assert HonestPhase(schema, w.rows, w.sent, w.relays[m.relay]);
    assert HeldFrom(w.rows, batch);
    var after := Next(schema, w, m);
    PhasesStayHonest(schema, w, after.rows, w.sent);
    forall id | id in after.rows ensures HonestRow(schema, after.sent, id, after.rows[id]) {
      assert HonestRow(schema, w.sent, id, w.rows[id]);
    }
    assert Sendable(schema, after.rows, GoodIn(schema, batch));
  }

  lemma SendKeepsSafe(schema: Schema, w: World, m: Move)
    requires Safe(schema, w) && Legal(w, m) && m.Send?
    ensures Safe(schema, Next(schema, w, m)) && RowsGrow(w.rows, Next(schema, w, m).rows)
  {
    hide Choice;
    assert HonestPhase(schema, w.rows, w.sent, w.relays[m.relay]);
    PhasesStayHonest(schema, w, w.rows, w.sent + m.delivered);
  }

  lemma MarkKeepsSafe(schema: Schema, w: World, m: Move)
    requires Safe(schema, w) && Legal(w, m) && (m.Publish? || m.Defer? || m.Crash?)
    ensures Safe(schema, Next(schema, w, m)) && RowsGrow(w.rows, Next(schema, w, m).rows)
  {
    hide Choice;
    if m.relay in w.relays {
      assert HonestPhase(schema, w.rows, w.sent, w.relays[m.relay]);
    }
    var after := Next(schema, w, m);
    PhasesStayHonest(schema, w, after.rows, after.sent);
    forall id | id in after.rows ensures HonestRow(schema, after.sent, id, after.rows[id]) {
      assert HonestRow(schema, w.sent, id, w.rows[id]);
    }
  }

  lemma NextKeepsSafe(schema: Schema, w: World, m: Move)
    requires Safe(schema, w) && Legal(w, m)
    ensures Safe(schema, Next(schema, w, m)) && RowsGrow(w.rows, Next(schema, w, m).rows)
  {
    hide Safe, Legal, Next, RowsGrow;
    match m
    case Queue(_, _) => QueueKeepsSafe(schema, w, m);
    case Claim(_, _, _, _, _) => ClaimKeepsSafe(schema, w, m);
    case RejectBroken(_, _, _) => RejectKeepsSafe(schema, w, m);
    case DeferBroken(_, _, _, _) => DeferKeepsSafe(schema, w, m);
    case Send(_, _, _) => SendKeepsSafe(schema, w, m);
    case Publish(_, _, _, _) => MarkKeepsSafe(schema, w, m);
    case Defer(_, _, _, _) => MarkKeepsSafe(schema, w, m);
    case Crash(_) => MarkKeepsSafe(schema, w, m);
  }

  lemma ChoiceIsFromTheTable(w: World, m: Move)
    requires Legal(w, m)
    ensures m.Claim? ==> forall id :: id in m.ids ==> id in w.rows && Waits(w.rows[id])
  {
  }

  lemma NothingIsSafe(schema: Schema)
    ensures Safe(schema, NOTHING)
  {
  }

  lemma {:induction false} AlwaysSafe(schema: Schema, w: World, moves: seq<Move>)
    requires Safe(schema, w) && AllLegal(schema, w, moves)
    ensures Safe(schema, Run(schema, w, moves))
  {
    hide Safe, Next, Legal;
    if moves != [] {
      var n := |moves| - 1;
      assert forall i :: 0 <= i < n ==> moves[..n][..i] == moves[..i];
      AlwaysSafe(schema, w, moves[..n]);
      NextKeepsSafe(schema, Run(schema, w, moves[..n]), moves[n]);
    }
  }

  /**
   Whatever relays do, fail to do or die doing: a row marked published was sent; a message its schema accepts is
   never finally rejected, so until it is published it is due from its next attempt on, whoever claimed it; a
   broken row is never sent, and rejected only once it has been tried three times; no row is both published and
   rejected.
   */
  lemma OutboxSafety(schema: Schema, moves: seq<Move>, id: RowId)
    requires AllLegal(schema, NOTHING, moves) && id in Run(schema, NOTHING, moves).rows
    ensures var w := Run(schema, NOTHING, moves);
            var row := w.rows[id];
            && (row.publishedAt.Some? ==> id in w.sent)
            && (Accepts(schema, row) ==> !row.finalRejected)
            && (Accepts(schema, row) && row.publishedAt.None? ==>
                  forall now :: Due(row, now) <==> now >= row.nextAttemptAt)
            && (!Accepts(schema, row) ==> id !in w.sent)
            && (row.finalRejected ==> row.attempts >= FINAL_ATTEMPTS)
            && !(row.publishedAt.Some? && row.finalRejected)
  {
    NothingIsSafe(schema);
    AlwaysSafe(schema, NOTHING, moves);
  }

  /** Published is final: no late failure of another relay that sent the same row brings it back. */
  lemma PublishedStaysPublished(schema: Schema, w: World, m: Move, id: RowId)
    requires Safe(schema, w) && Legal(w, m) && id in w.rows && w.rows[id].publishedAt.Some?
    ensures var after := Next(schema, w, m);
            id in after.rows && after.rows[id].publishedAt.Some? && forall now :: !Due(after.rows[id], now)
  {
    hide Choice;
    NextKeepsSafe(schema, w, m);
  }

  /**
   The lock is a note, not a lock: whatever one relay has claimed, another idle one may claim as well, in any
   world and to the last row, so the same message may be sent twice.
   */
  lemma ClaimTakesNothingAway(schema: Schema, w: World, first: Move, second: RelayId)
    requires Legal(w, first) && first.Claim? && second != first.relay && PhaseOf(w, second).Idle?
    ensures var again := Claim(second, first.ids, first.now, first.limit, first.held);
            var after := Next(schema, w, first);
            && Legal(after, again)
            && PhaseOf(after, first.relay).Holding? && PhaseOf(after, first.relay).batch.Keys == first.ids
            && PhaseOf(Next(schema, after, again), second).Holding?
            && PhaseOf(Next(schema, after, again), second).batch.Keys == first.ids
  {
    var rows := Claimed(w.rows, first.ids, first.relay);
    forall id | id in rows ensures Due(rows[id], first.now) == Due(w.rows[id], first.now) {
    }
    SameChoice(w.rows, rows, first.now, first.limit, first.held, first.ids);
  }

  lemma SameChoice(a: Rows, b: Rows, now: int, limit: nat, held: set<RowId>, ids: set<RowId>)
    requires a.Keys == b.Keys && forall id :: id in a ==> Due(a[id], now) == Due(b[id], now)
    requires Choice(a, now, limit, held, ids)
    ensures Choice(b, now, limit, held, ids)
  {
    hide Due;
  }

  // ---------------------------------------------------------------- attempts

  /** How many claims of a history took the row. */
  function ClaimsOf(moves: seq<Move>, id: RowId): nat {
    if moves == [] then 0
    else
      var last := moves[|moves| - 1];
      ClaimsOf(moves[..|moves| - 1], id) + if last.Claim? && id in last.ids then 1 else 0
  }

  lemma NextCountsAttempts(schema: Schema, w: World, m: Move, id: RowId)
    requires Legal(w, m)
    ensures var after := Next(schema, w, m);
            && (id in w.rows ==>
                  id in after.rows
                  && after.rows[id].attempts == w.rows[id].attempts + if m.Claim? && id in m.ids then 1 else 0)
            && (id !in w.rows && id in after.rows ==> after.rows[id].attempts == 0)
            && (id !in w.rows && m.Claim? ==> id !in m.ids)
  {
    hide Choice;
    ChoiceIsFromTheTable(w, m);
  }

  /**
   The attempts of a row are the claims that took it, so a row is rejected only after three relays' passes over it.
   */
  lemma {:induction false} AttemptsAreClaims(schema: Schema, moves: seq<Move>, id: RowId)
    requires AllLegal(schema, NOTHING, moves)
    ensures var w := Run(schema, NOTHING, moves);
            if id in w.rows then w.rows[id].attempts == ClaimsOf(moves, id) else ClaimsOf(moves, id) == 0
  {
    hide Legal, Next;
    if moves != [] {
      var n := |moves| - 1;
      assert forall i :: 0 <= i < n ==> moves[..n][..i] == moves[..i];
      AttemptsAreClaims(schema, moves[..n], id);
      NextCountsAttempts(schema, Run(schema, NOTHING, moves[..n]), moves[n], id);
    }
  }

  lemma RejectedAfterThreeClaims(schema: Schema, moves: seq<Move>, id: RowId)
    requires AllLegal(schema, NOTHING, moves)
    requires id in Run(schema, NOTHING, moves).rows && Run(schema, NOTHING, moves).rows[id].finalRejected
    ensures ClaimsOf(moves, id) >= 3
  {
    OutboxSafety(schema, moves, id);
    AttemptsAreClaims(schema, moves, id);
  }
}
