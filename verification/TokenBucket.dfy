/** The rate limiter: a bucket of tokens refilled lazily, by arithmetic on the time of the last refill. */
module TokenBucket {
  import opened Wrappers
  import opened Arithmetic

  datatype BucketState = BucketState(tokens: int, refilledAtMs: int)

  datatype BucketSettings = BucketSettings(capacity: int, refillMs: int)

  datatype BucketDecision = BucketDecision(allowed: bool, tokens: int, retryAfterMs: int, refilledAtMs: int)

  predicate Usable(settings: BucketSettings) {
    settings.capacity >= 1 && settings.refillMs >= 1
  }

  function TakeToken(state: Option<BucketState>, nowMs: int, settings: BucketSettings, cost: nat): BucketDecision
    requires settings.refillMs >= 1
  {
    var previous := state.GetOr(BucketState(settings.capacity, nowMs));
    var waited := Max(0, nowMs - previous.refilledAtMs);
    var gained := Quotient(waited, settings.refillMs);
    var available := Min(settings.capacity, previous.tokens + gained);
    var refilledAtMs :=
      if available >= settings.capacity then nowMs else previous.refilledAtMs + Times(gained, settings.refillMs);
    if available <= 0
    then BucketDecision(false, 0, settings.refillMs - Remainder(waited, settings.refillMs), refilledAtMs)
    else BucketDecision(true, Max(0, available - cost), 0, refilledAtMs)
  }

  function StateAfter(d: BucketDecision): Option<BucketState> {
    Some(BucketState(d.tokens, d.refilledAtMs))
  }

  /** Stored buckets hold no negative number of tokens. */
  predicate Sane(state: Option<BucketState>) {
    state.Some? ==> state.value.tokens >= 0
  }

  /** Taking whole periods out of a wait takes them out of its count and leaves the rest as it was. */
  lemma WaitSplits(x: int, g: int, r: int)
    requires r >= 1
    ensures Quotient(x - Times(g, r), r) == Quotient(x, r) - g && Remainder(x - Times(g, r), r) == Remainder(x, r)
  {
    hide Times, Quotient, Remainder;
    QuotientOf(x, r);
    TimesAdds(Quotient(x, r), g, r);
    QuotientIs(x - Times(g, r), r, Quotient(x, r) - g);
    QuotientOf(x - Times(g, r), r);
  }

  // ---------------------------------------------------------------- free checks are transparent

  /** A check of cost zero, at any earlier moment, leaves every later decision as it would have been. */
  lemma CheckIsTransparent(state: Option<BucketState>, t: int, later: int, settings: BucketSettings, cost: nat)
    requires Usable(settings) && Sane(state) && t <= later
    ensures TakeToken(StateAfter(TakeToken(state, t, settings, 0)), later, settings, cost) ==
            TakeToken(state, later, settings, cost)
  {
    hide Times, Quotient, Remainder;
    var r := settings.refillMs;
    var previous := state.GetOr(BucketState(settings.capacity, t));
    var ref := previous.refilledAtMs;
    var waited, waitedLater := Max(0, t - ref), Max(0, later - ref);
    TimesAdds(0, 0, r);
    QuotientIs(0, r, 0);
    QuotientOf(waited, r);
    QuotientOf(waitedLater, r);
    QuotientOf(later - t, r);
    TimesOrders(Quotient(waited, r), Quotient(waitedLater, r), r);
    WaitSplits(waitedLater, Quotient(waited, r), r);
    var g := Quotient(waited, r);
    TimesAdds(Quotient(waitedLater, r), g, r);
    var mid := TakeToken(state, t, settings, 0);
    if Min(settings.capacity, previous.tokens + g) < settings.capacity {
      assert mid.tokens == Max(0, previous.tokens + g) && mid.refilledAtMs == ref + Times(g, r);
      if later >= ref {
        assert Max(0, later - mid.refilledAtMs) == waitedLater - Times(g, r);
      } else {
        assert g == 0 && Max(0, later - mid.refilledAtMs) == 0 == waitedLater;
      }
    } else {
      assert mid.tokens == settings.capacity && mid.refilledAtMs == t;
      assert Max(0, later - t) == later - t;
    }
  }

  /** A cost is so many tokens: paying it at once or in two parts at one moment leaves the same bucket. */
  lemma CostsAddUp(state: Option<BucketState>, t: int, settings: BucketSettings, a: nat, b: nat)
    requires Usable(settings) && Sane(state)
    ensures var first := TakeToken(state, t, settings, a);
            StateAfter(TakeToken(StateAfter(first), t, settings, b)) ==
            StateAfter(TakeToken(state, t, settings, a + b))
  {
    hide Times, Quotient, Remainder;
    var r := settings.refillMs;
    var ref := state.GetOr(BucketState(settings.capacity, t)).refilledAtMs;
    var waited := Max(0, t - ref);
    TimesAdds(0, 0, r);
    QuotientIs(0, r, 0);
    QuotientOf(waited, r);
    QuotientIs(waited - Times(Quotient(waited, r), r), r, 0);
  }

  /** A request at a moment; cost 0 asks, cost 1 pays. */
  datatype Request = Request(at: int, cost: nat)

  predicate InOrder(requests: seq<Request>) {
    forall i, j :: 0 <= i < j < |requests| ==> requests[i].at <= requests[j].at
  }

  /** Decisions of all requests, in order. */
  function Decisions(state: Option<BucketState>, requests: seq<Request>, settings: BucketSettings): seq<BucketDecision>
    requires settings.refillMs >= 1
    decreases |requests|
  {
    if requests == [] then []
    else
      var d := TakeToken(state, requests[0].at, settings, requests[0].cost);
      [d] + Decisions(StateAfter(d), requests[1..], settings)
  }

  /** Decisions of the paying requests only. */
  function PaidDecisions(state: Option<BucketState>, requests: seq<Request>, settings: BucketSettings)
      : seq<BucketDecision>
    requires settings.refillMs >= 1
    decreases |requests|
  {
    if requests == [] then []
    else
      var d := TakeToken(state, requests[0].at, settings, requests[0].cost);
      (if requests[0].cost == 0 then [] else [d]) + PaidDecisions(StateAfter(d), requests[1..], settings)
  }

  function WithoutChecks(requests: seq<Request>): seq<Request> {
    if requests == [] then []
    else (if requests[0].cost == 0 then [] else [requests[0]]) + WithoutChecks(requests[1..])
  }

  lemma TakeStaysSane(state: Option<BucketState>, t: int, settings: BucketSettings, cost: nat)
    requires settings.refillMs >= 1
    ensures Sane(StateAfter(TakeToken(state, t, settings, cost)))
  {
  }

  lemma {:induction false} CheckedFirst(state: Option<BucketState>, t: int, requests: seq<Request>,
      settings: BucketSettings)
    requires Usable(settings) && Sane(state) && InOrder(requests) && (requests != [] ==> t <= requests[0].at)
    ensures PaidDecisions(StateAfter(TakeToken(state, t, settings, 0)), requests, settings) ==
            PaidDecisions(state, requests, settings)
    decreases |requests|
  {
    hide TakeToken;
    if requests != [] {
      CheckIsTransparent(state, t, requests[0].at, settings, requests[0].cost);
    }
  }

  /** Checks inserted anywhere in a run change none of the decisions that matter. */
  lemma {:induction false} ChecksChangeNothing(state: Option<BucketState>, requests: seq<Request>,
      settings: BucketSettings)
    requires Usable(settings) && Sane(state) && InOrder(requests)
    ensures PaidDecisions(state, requests, settings) == Decisions(state, WithoutChecks(requests), settings)
    decreases |requests|
  {
    hide TakeToken;
    if requests != [] {
      var first, rest := requests[0], requests[1..];
      if first.cost == 0 {
        CheckedFirst(state, first.at, rest, settings);
        ChecksChangeNothing(state, rest, settings);
        assert WithoutChecks(requests) == WithoutChecks(rest);
        var after := StateAfter(TakeToken(state, first.at, settings, 0));
        assert PaidDecisions(state, requests, settings) == PaidDecisions(after, rest, settings);
      } else {
        var after := StateAfter(TakeToken(state, first.at, settings, first.cost));
        TakeStaysSane(state, first.at, settings, first.cost);
        ChecksChangeNothing(after, rest, settings);
        assert WithoutChecks(requests)[1..] == WithoutChecks(rest);
      }
    }
  }

  // ---------------------------------------------------------------- the bound

  /** How many requests paid and were allowed. */
  function Taken(state: Option<BucketState>, requests: seq<Request>, settings: BucketSettings): nat
    requires settings.refillMs >= 1
    decreases |requests|
  {
    if requests == [] then 0
    else
      var d := TakeToken(state, requests[0].at, settings, requests[0].cost);
      (if d.allowed && requests[0].cost >= 1 then 1 else 0) + Taken(StateAfter(d), requests[1..], settings)
  }

  /** What the bucket is worth in milliseconds of refilling. */
  function Worth(state: BucketState, now: int, settings: BucketSettings): int {
    Times(state.tokens, settings.refillMs) + (now - state.refilledAtMs)
  }

  /** A take spends at least its token's worth and creates nothing. */
  lemma TakeSpends(state: BucketState, t: int, settings: BucketSettings, cost: nat)
    requires Usable(settings) && state.tokens >= 0 && state.refilledAtMs <= t
    ensures var d := TakeToken(Some(state), t, settings, cost);
            && d.refilledAtMs <= t && d.tokens >= 0
            && Worth(StateAfter(d).value, t, settings) + (if d.allowed && cost >= 1 then settings.refillMs else 0)
               <= Worth(state, t, settings)
            && (d.allowed && cost >= 1 ==>
                  Worth(StateAfter(d).value, t, settings) <= Times(settings.capacity - 1, settings.refillMs))
            && Worth(StateAfter(d).value, t, settings) <= Times(settings.capacity, settings.refillMs)
  {
    hide Times, Quotient, Remainder;
    var r, cap := settings.refillMs, settings.capacity;
    var waited := t - state.refilledAtMs;
    var g := Quotient(waited, r);
    QuotientOf(waited, r);
    var available := Min(cap, state.tokens + g);
    var d := TakeToken(Some(state), t, settings, cost);
    TimesAdds(state.tokens, g, r);
    TimesGrows(available, state.tokens + g, r);
    TimesAdds(available, 1, r);
    TimesAdds(available, -1, r);
    TimesAdds(cap, 1, r);
    if available < cap {
      TimesGrows(available, cap - 1, r);
    }
    if available > 0 {
      TimesGrows(d.tokens, if cost == 0 then available else available - 1, r);
    }
  }

  lemma {:induction false} TakenIsPaidFor(state: BucketState, now: int, requests: seq<Request>,
      settings: BucketSettings, end: int)
    requires Usable(settings) && state.tokens >= 0 && state.refilledAtMs <= now <= end
    requires InOrder(requests) && forall i :: 0 <= i < |requests| ==> now <= requests[i].at <= end
    ensures Times(Taken(Some(state), requests, settings), settings.refillMs) <=
            Worth(state, now, settings) + (end - now)
    decreases |requests|
  {
    hide TakeToken, Times;
    TimesAdds(0, 0, settings.refillMs);
    if requests == [] {
      TimesGrows(0, state.tokens, settings.refillMs);
    } else {
      var first, rest := requests[0], requests[1..];
      var d := TakeToken(Some(state), first.at, settings, first.cost);
      TakeSpends(state, first.at, settings, first.cost);
      TakenIsPaidFor(StateAfter(d).value, first.at, rest, settings, end);
      TimesAdds(1, Taken(StateAfter(d), rest, settings), settings.refillMs);
    }
  }

  /**
   In any window of length T, with a clock that does not run back, at most capacity + T / refillMs takes are
   allowed, however long the bucket was left alone before and whatever free checks come in between.
   */
  lemma AtMostCapacityPlusRefill(
    state: Option<BucketState>, requests: seq<Request>, settings: BucketSettings, start: int, T: nat)
    requires Usable(settings) && Sane(state) && (state.Some? ==> state.value.refilledAtMs <= start)
    requires InOrder(requests) && forall i :: 0 <= i < |requests| ==> start <= requests[i].at <= start + T
    ensures Taken(state, requests, settings) <= settings.capacity + T / settings.refillMs
  {
    assert T / settings.refillMs == Quotient(T, settings.refillMs);
    var full := BucketState(settings.capacity, start);
    if state.None? && requests != [] {
      NewBucketIsFull(requests[0].at, settings, requests[0].cost, start);
    }
    TakenBound(state.GetOr(full), requests, settings, start, T);
  }

  lemma NewBucketIsFull(t: int, settings: BucketSettings, cost: nat, start: int)
    requires Usable(settings) && start <= t
    ensures TakeToken(None, t, settings, cost) ==
        TakeToken(Some(BucketState(settings.capacity, start)), t, settings, cost)
  {
    hide Times, Quotient, Remainder;
    QuotientOf(t - start, settings.refillMs);
    QuotientOf(0, settings.refillMs);
  }

  lemma {:induction false} TakenBound(state: BucketState, requests: seq<Request>, settings: BucketSettings,
      start: int, T: nat)
    requires Usable(settings) && state.tokens >= 0 && state.refilledAtMs <= start
    requires InOrder(requests) && forall i :: 0 <= i < |requests| ==> start <= requests[i].at <= start + T
    ensures Taken(Some(state), requests, settings) <= settings.capacity + Quotient(T, settings.refillMs)
  {
    hide TakeToken, Times, Quotient, Remainder;
    var r, cap := settings.refillMs, settings.capacity;
    QuotientOf(T, r);
    if requests != [] {
      var first, rest := requests[0], requests[1..];
      var d := TakeToken(Some(state), first.at, settings, first.cost);
      TakeSpends(state, first.at, settings, first.cost);
      TakenIsPaidFor(StateAfter(d).value, first.at, rest, settings, start + T);
      var all := Taken(Some(state), requests, settings);
      TimesAdds(1, Taken(StateAfter(d), rest, settings), r);
      TimesAdds(cap, 1, r);
      TimesAdds(cap, Quotient(T, r), r);
      TimesOrders(all, cap + Quotient(T, r), r);
    }
  }

  /** Requests at `at`, then one per refill period. */
  function Greedy(at: int, burst: nat, periods: nat, settings: BucketSettings): seq<Request>
    decreases burst, periods
  {
    if burst > 0 then [Request(at, 1)] + Greedy(at, burst - 1, periods, settings)
    else if periods > 0
    then [Request(at + settings.refillMs, 1)] + Greedy(at + settings.refillMs, 0, periods - 1, settings)
    else []
  }

  /** The bound is reached: a burst of the whole capacity, then one take per period, all allowed. */
  lemma {:induction false} BoundIsReached(at: int, burst: nat, periods: nat, settings: BucketSettings)
    requires Usable(settings) && burst <= settings.capacity
    ensures Taken(Some(BucketState(burst, at)), Greedy(at, burst, periods, settings), settings) == burst + periods
    decreases burst, periods
  {
    var requests := Greedy(at, burst, periods, settings);
    var state := BucketState(burst, at);
    var r := settings.refillMs;
    TimesAdds(0, 0, r);
    QuotientIs(0, r, 0);
    if burst > 0 {
      assert requests[1..] == Greedy(at, burst - 1, periods, settings);
      assert StateAfter(TakeToken(Some(state), at, settings, 1)).value == BucketState(burst - 1, at);
      BoundIsReached(at, burst - 1, periods, settings);
    } else if periods > 0 {
      QuotientIs(r, r, 1);
      assert requests[1..] == Greedy(at + r, 0, periods - 1, settings);
      assert StateAfter(TakeToken(Some(state), at + r, settings, 1)).value == BucketState(0, at + r);
      BoundIsReached(at + r, 0, periods - 1, settings);
    }
  }

  // ---------------------------------------------------------------- the promised wait

  /** After a denial the caller is allowed from `retryAfterMs` on, and not a millisecond sooner. */
  predicate WaitIsExactAt(state: BucketState, now: int, later: int, settings: BucketSettings)
    requires settings.refillMs >= 1
  {
    var d := TakeToken(Some(state), now, settings, 1);
    TakeToken(StateAfter(d), later, settings, 1).allowed <==> later >= now + d.retryAfterMs
  }

  /** The promised wait is exact, for every later moment, exactly when the bucket was not refilled in the future. */
  lemma RetryAfterIsExactIffClockAgrees(state: BucketState, now: int, settings: BucketSettings)
    requires Usable(settings) && state.tokens >= 0
    requires !TakeToken(Some(state), now, settings, 1).allowed
    ensures (forall later :: later >= now ==> WaitIsExactAt(state, now, later, settings)) <==> state.refilledAtMs <= now
  {
    hide Times, Quotient, Remainder;
    var r, ref := settings.refillMs, state.refilledAtMs;
    var waited := Max(0, now - ref);
    QuotientOf(waited, r);
    TimesAdds(0, 0, r);
    assert state.tokens == 0 && Quotient(waited, r) == 0;
    var d := TakeToken(Some(state), now, settings, 1);
    assert d.tokens == 0 && d.refilledAtMs == ref;
    if ref <= now {
      forall later | later >= now ensures WaitIsExactAt(state, now, later, settings) {
        var w := later - ref;
        QuotientOf(w, r);
        if w < r {
          QuotientIs(w, r, 0);
        } else {
          TimesOrders(1, Quotient(w, r), r);
        }
      }
    } else {
      var later := now + r;
      var w := Max(0, later - ref);
      QuotientIs(w, r, 0);
      assert !WaitIsExactAt(state, now, later, settings);
    }
  }

  /** A bucket last refilled a second ahead of the clock: denied, told to wait 100 ms, and then denied again. */
  lemma ClockBehindRefill()
    ensures var state, settings := BucketState(0, 1_000), BucketSettings(5, 100);
            var denied := TakeToken(Some(state), 0, settings, 1);
            && !denied.allowed && denied.retryAfterMs == 100
            && !TakeToken(StateAfter(denied), 100, settings, 1).allowed
            && !WaitIsExactAt(state, 0, 100, settings)
  {
  }

  // ---------------------------------------------------------------- the stored step

  class RateLimitTable {
    var rows: map<string, BucketState>

    constructor ()
      ensures rows == map[]
    {
      rows := map[];
    }

    /** One transaction: it decides and stores, or fails and leaves the table alone. */
    method ConsumeRateLimit(bucketKey: string, nowMs: int, settings: BucketSettings, cost: nat, databaseFails: bool)
      returns (decision: Option<BucketDecision>)
      requires settings.refillMs >= 1
      modifies this
      ensures databaseFails ==> decision.None? && rows == old(rows)
      ensures !databaseFails ==>
                var before := if bucketKey in old(rows) then Some(old(rows)[bucketKey]) else None;
                && decision == Some(TakeToken(before, nowMs, settings, cost))
                && rows == old(rows)[bucketKey := StateAfter(decision.value).value]
    {
      if databaseFails {
        return None;
      }
      var row := if bucketKey in rows then Some(rows[bucketKey]) else None;
      var taken := TakeToken(row, nowMs, settings, cost);
      rows := rows[bucketKey := BucketState(taken.tokens, taken.refilledAtMs)];
      decision := Some(taken);
    }
  }
}
