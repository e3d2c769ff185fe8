/**
The other end of the live channel: a client that reconnects with the id of the last frame it saw. What it was
given since it last had to read everything again must be its share of the log, without a hole.
*/
module LiveClient {
  import opened Wrappers
  import opened Sequences
  import opened LiveRing
  import opened LiveBus

  /**
   `last` is the id the browser keeps; `from` is where the client last started from scratch (its first greeting
   or the last resync); `received` is what it got since.
   */
  datatype Client = Client(last: LastId, from: nat, fromEpoch: int, received: seq<Event>)

  /** Every frame with an id moves the last id; a resync makes the client read everything again. */
  function Take(c: Client, m: Message): Client {
    match m
    case Hello(e, n) =>
      if c.last.NoId? && n >= 0 then Client(At(e, n), n, e, []) else c.(last := At(e, n))
    case Resync(e, n, _) => if n >= 0 then Client(At(e, n), n, e, []) else c
    case Live(event) => c.(last := At(event.epoch, event.num), received := c.received + [event])
  }

  function TakeAll(c: Client, ms: seq<Message>): Client {
    if ms == [] then c else Take(TakeAll(c, ms[..|ms| - 1]), ms[|ms| - 1])
  }

  /** A gateway may restart: each epoch has its own log. */
  type Logs = int -> seq<Event>

  ghost predicate GoodLogs(logs: Logs) {
    forall e :: Numbered(logs(e), e)
  }

  /** A connection opened when its epoch's log had `openAt` events, cut at `cutAt`, of which `taken` frames arrived. */
  datatype Connection = Connection(epoch: int, openAt: nat, cutAt: nat, taken: nat)

  function SentOn(logs: Logs, capacity: nat, options: Options, c: Client, x: Connection): seq<Message>
    requires x.openAt <= x.cutAt <= |logs(x.epoch)|
  {
    Sent(logs(x.epoch)[..x.cutAt], capacity, x.epoch, options.(lastEventId := c.last), x.openAt)
  }

  /** The connection is possible: positions are in order and an id of this epoch is not from the future. */
  ghost predicate Possible(logs: Logs, capacity: nat, options: Options, c: Client, x: Connection) {
    && x.openAt <= x.cutAt <= |logs(x.epoch)|
    && (c.last.At? && c.last.epoch == x.epoch ==> c.last.num <= x.openAt)
    && x.taken <= |SentOn(logs, capacity, options, c, x)|
  }

  function Connect(logs: Logs, capacity: nat, options: Options, c: Client, x: Connection): Client
    requires x.openAt <= x.cutAt <= |logs(x.epoch)| && x.taken <= |SentOn(logs, capacity, options, c, x)|
  {
    TakeAll(c, SentOn(logs, capacity, options, c, x)[..x.taken])
  }

  /** The client's share of the log between two positions. */
  function Share(logs: Logs, options: Options, epoch: int, from: nat, upTo: nat): seq<Event>
    requires from <= upTo <= |logs(epoch)|
  {
    Filter(logs(epoch)[from..upTo], Allowed(options))
  }

  /** No hole: everything allowed between the start and the last id has been received, once and in order. */
  ghost predicate Lossless(logs: Logs, options: Options, c: Client) {
    match c.last
    case NoId => c.received == []
    case Garbled => false
    case At(e, n) => c.fromEpoch == e && c.from <= n <= |logs(e)| && c.received == Share(logs, options, e, c.from, n)
  }

  /** Only the greeting arrived, and there was something to catch up with. */
  ghost predicate CutAfterHello(logs: Logs, options: Options, c: Client, x: Connection) {
    && x.taken == 1 && c.last.At?
    && (c.last.epoch != x.epoch
        || (0 <= c.last.num <= x.openAt <= |logs(x.epoch)|
            && Share(logs, options, x.epoch, c.last.num, x.openAt) != []))
  }

  // ---------------------------------------------------------------- runs of event frames

  lemma {:induction false} TakeAllAppend(c: Client, a: seq<Message>, b: seq<Message>)
    ensures TakeAll(c, a + b) == TakeAll(TakeAll(c, a), b)
  {
    hide Take;
    if b == [] {
      assert a + b == a;
    } else {
      assert (a + b)[..|a + b| - 1] == a + b[..|b| - 1];
      TakeAllAppend(c, a, b[..|b| - 1]);
    }
  }

  lemma {:induction false} TakeFrames(c: Client, events: seq<Event>)
    ensures TakeAll(c, Frames(events)) ==
            if events == [] then c
            else
              var last := events[|events| - 1];
              c.(last := At(last.epoch, last.num), received := c.received + events)
  {
    hide Frames;
    if events == [] {
      NoFrames();
    } else {
      var n := |events| - 1;
      var front := events[..n];
      TakeFrames(c, front);
      FramesOfFront(events);
      TakeAllAppend(c, Frames(front), [Live(events[n])]);
      OneMessage(TakeAll(c, Frames(front)), Live(events[n]));
      assert c.received + front + [events[n]] == c.received + events by {
        assert events == front + [events[n]];
      }
    }
  }

  lemma NoFrames()
    ensures Frames([]) == []
  {
  }

  lemma FramesOfFront(events: seq<Event>)
    requires events != []
    ensures Frames(events) == Frames(events[..|events| - 1]) + [Live(events[|events| - 1])]
  {
  }

  lemma FramesPrefix(events: seq<Event>, j: nat)
    requires j <= |events|
    ensures j <= |Frames(events)| && Frames(events)[..j] == Frames(events[..j])
  {
    FrameAt(events);
    FrameAt(events[..j]);
    assert forall i :: 0 <= i < j ==> Frames(events)[i] == Frames(events[..j])[i];
  }

  lemma NothingShared(options: Options)
    ensures Filter<Event>([], Allowed(options)) == []
  {
  }

  lemma OneShared(e: Event, options: Options)
    ensures Filter([e], Allowed(options)) == if Permits(options, e) then [e] else []
  {
  }

  /** A prefix of the share of a stretch is the share of a shorter stretch, up to the last event it holds. */
  lemma {:induction false} PrefixOfShare(log: seq<Event>, epoch: int, options: Options, from: nat, upTo: nat, j: nat)
    requires Numbered(log, epoch) && from <= upTo <= |log|
    requires 1 <= j <= |Filter(log[from..upTo], Allowed(options))|
    ensures var share := Filter(log[from..upTo], Allowed(options));
            var last := share[j - 1];
            && last.epoch == epoch && from < last.num <= upTo
            && share[..j] == Filter(log[from..last.num], Allowed(options))
    decreases upTo
  {
    hide Permits, Filter, Numbered;
    var share := Filter(log[from..upTo], Allowed(options));
    NothingShared(options);
    assert log[from..from] == [];
    var front := Filter(log[from..upTo - 1], Allowed(options));
    assert log[from..upTo] == log[from..upTo - 1] + [log[upTo - 1]];
    FilterAppend(log[from..upTo - 1], [log[upTo - 1]], Allowed(options));
    OneShared(log[upTo - 1], options);
    NumberAt(log, epoch, upTo - 1);
    if j <= |front| {
      PrefixOfShare(log, epoch, options, from, upTo - 1, j);
      assert share[..j] == front[..j];
    } else {
      assert share[j - 1] == log[upTo - 1] && share[..j] == share;
    }
  }

  /** Taking part of the events of a stretch keeps a client that stands at its start without a hole. */
  lemma TakePartOfShare(logs: Logs, options: Options, c: Client, epoch: int, from: nat, upTo: nat, j: nat)
    requires GoodLogs(logs) && from <= upTo <= |logs(epoch)|
    requires c.fromEpoch == epoch && c.from <= from && c.received == Share(logs, options, epoch, c.from, from)
    requires 1 <= j <= |Share(logs, options, epoch, from, upTo)| == |Frames(Share(logs, options, epoch, from, upTo))|
    ensures Lossless(logs, options, TakeAll(c, Frames(Share(logs, options, epoch, from, upTo))[..j]))
  {
    hide Permits, Numbered;
    var log := logs(epoch);
    var share := Share(logs, options, epoch, from, upTo);
    FramesPrefix(share, j);
    TakeFrames(c, share[..j]);
    PrefixOfShare(log, epoch, options, from, upTo, j);
    var last := share[j - 1];
    assert log[c.from..last.num] == log[c.from..from] + log[from..last.num];
    FilterAppend(log[c.from..from], log[from..last.num], Allowed(options));
  }

  // ---------------------------------------------------------------- one connection

  /** Backfill and live tail together are simply the share of everything after the last id. */
  lemma SentAfterBackfill(logs: Logs, capacity: nat, options: Options, epoch: int, last: LastId, openAt: nat,
      cutAt: nat)
    requires GoodLogs(logs) && capacity >= 1 && openAt <= cutAt <= |logs(epoch)|
    requires last.At? && last.epoch == epoch && 0 <= last.num <= openAt
    requires !Since(logs(epoch)[..openAt], capacity, epoch, last).resync
    ensures Sent(logs(epoch)[..cutAt], capacity, epoch, options.(lastEventId := last), openAt) ==
            [Hello(epoch, openAt)] + Frames(Share(logs, options, epoch, last.num, cutAt))
  {
    hide Permits, Since, Filter, Frames, Numbered;
    var log := logs(epoch);
    PrefixIsNumbered(log, epoch, openAt);
    assert log[..cutAt][..openAt] == log[..openAt];
    SinceIsExactOrResync(log[..openAt], capacity, epoch, last);
    var backfill := Since(log[..openAt], capacity, epoch, last);
    assert backfill.events == log[last.num..openAt];
    assert log[..cutAt][openAt..] == log[openAt..cutAt];
    assert log[last.num..cutAt] == log[last.num..openAt] + log[openAt..cutAt];
    SameAllowed(options, last);
    var options1 := options.(lastEventId := last);
    FilterSame(log[last.num..openAt], options, last);
    FilterSame(log[openAt..cutAt], options, last);
    FilterAppend(log[last.num..openAt], log[openAt..cutAt], Allowed(options));
    FramesAppend(Filter(log[last.num..openAt], Allowed(options)), Filter(log[openAt..cutAt], Allowed(options)));
  }

  lemma PrefixIsNumbered(log: seq<Event>, epoch: int, n: nat)
    requires Numbered(log, epoch) && n <= |log|
    ensures Numbered(log[..n], epoch)
  {
  }

  lemma SameAllowed(options: Options, last: LastId)
    ensures forall e :: Permits(options.(lastEventId := last), e) == Permits(options, e)
  {
  }

  lemma {:induction false} FilterSame(events: seq<Event>, options: Options, last: LastId)
    ensures Filter(events, Allowed(options.(lastEventId := last))) == Filter(events, Allowed(options))
  {
    if events != [] {
      FilterSame(events[..|events| - 1], options, last);
      SameAllowed(options, last);
    }
  }

  /** A connection that starts from nothing sends a greeting, or a greeting and a resync, and then the live tail. */
  lemma SentFromScratch(logs: Logs, capacity: nat, options: Options, epoch: int, last: LastId, openAt: nat, cutAt: nat)
    requires openAt <= cutAt <= |logs(epoch)|
    requires last.NoId? || Since(logs(epoch)[..openAt], capacity, epoch, last).resync
    ensures var backfill := Since(logs(epoch)[..openAt], capacity, epoch, last);
            Sent(logs(epoch)[..cutAt], capacity, epoch, options.(lastEventId := last), openAt) ==
            [Hello(epoch, openAt)]
            + (if last.NoId? then [] else [Resync(epoch, openAt, backfill.reason)])
            + Frames(Share(logs, options, epoch, openAt, cutAt))
  {
    hide Permits;
    var log := logs(epoch);
    assert log[..cutAt][..openAt] == log[..openAt];
    assert log[..cutAt][openAt..] == log[openAt..cutAt];
    FilterSame(log[openAt..cutAt], options, last);
    assert Filter<Event>([], Allowed(options.(lastEventId := last))) == [];
  }

  lemma Starts(logs: Logs, options: Options, c: Client, epoch: int, at: nat, upTo: nat, j: nat)
    requires GoodLogs(logs) && at <= upTo <= |logs(epoch)|
    requires c == Client(At(epoch, at), at, epoch, [])
    requires j <= |Share(logs, options, epoch, at, upTo)| == |Frames(Share(logs, options, epoch, at, upTo))|
    ensures Lossless(logs, options, TakeAll(c, Frames(Share(logs, options, epoch, at, upTo))[..j]))
  {
    hide Numbered, Permits;
    assert logs(epoch)[at..at] == [];
    assert Share(logs, options, epoch, at, at) == [];
    if j == 0 {
      FramesPrefix(Share(logs, options, epoch, at, upTo), 0);
    } else {
      TakePartOfShare(logs, options, c, epoch, at, upTo, j);
    }
  }

  lemma PrefixOfJoined<T>(a: seq<T>, b: seq<T>, k: nat)
    requires |a| <= k <= |a + b|
    ensures (a + b)[..k] == a + b[..k - |a|]
  {
  }

  /** The first connection of a client. */
  lemma FirstConnection(logs: Logs, capacity: nat, options: Options, c: Client, x: Connection)
    requires GoodLogs(logs) && c.last.NoId? && Lossless(logs, options, c) && Possible(logs, capacity, options, c, x)
    ensures Lossless(logs, options, Connect(logs, capacity, options, c, x))
  {
    hide Permits, Numbered, Sent, GoodLogs;
    SentFromScratch(logs, capacity, options, x.epoch, c.last, x.openAt, x.cutAt);
    var share := Share(logs, options, x.epoch, x.openAt, x.cutAt);
    var hello := Hello(x.epoch, x.openAt);
    var sent := SentOn(logs, capacity, options, c, x);
    assert sent == [hello] + Frames(share);
    if x.taken == 0 {
      assert sent[..0] == [];
    } else {
      PrefixOfJoined([hello], Frames(share), x.taken);
      TakeAllAppend(c, [hello], Frames(share)[..x.taken - 1]);
      assert TakeAll(c, [hello]) == Client(At(x.epoch, x.openAt), x.openAt, x.epoch, []);
      FrameAt(share);
      Starts(logs, options, TakeAll(c, [hello]), x.epoch, x.openAt, x.cutAt, x.taken - 1);
    }
  }

  /**
   A connection that answers with a resync: after it the client starts afresh; before it the old hole is not known.
   */
  lemma ResyncConnection(logs: Logs, capacity: nat, options: Options, c: Client, x: Connection)
    requires GoodLogs(logs) && c.last.At? && Lossless(logs, options, c) && Possible(logs, capacity, options, c, x)
    requires Since(logs(x.epoch)[..x.openAt], capacity, x.epoch, c.last).resync
    ensures x.taken != 1 ==> Lossless(logs, options, Connect(logs, capacity, options, c, x))
    ensures x.taken == 1 ==> Connect(logs, capacity, options, c, x) == c.(last := At(x.epoch, x.openAt))
  {
    hide Permits, Numbered, Sent, GoodLogs, Since, Filter, Frames;
    SentFromScratch(logs, capacity, options, x.epoch, c.last, x.openAt, x.cutAt);
    var share := Share(logs, options, x.epoch, x.openAt, x.cutAt);
    var reason := Since(logs(x.epoch)[..x.openAt], capacity, x.epoch, c.last).reason;
    var greeting := [Hello(x.epoch, x.openAt), Resync(x.epoch, x.openAt, reason)];
    var sent := SentOn(logs, capacity, options, c, x);
    assert sent == greeting + Frames(share);
    assert sent[..0] == [] && sent[..1] == [greeting[0]];
    OneMessage(c, greeting[0]);
    if x.taken >= 2 {
      PrefixOfJoined(greeting, Frames(share), x.taken);
      TakeAllAppend(c, greeting, Frames(share)[..x.taken - 2]);
      assert greeting == [greeting[0]] + [greeting[1]];
      TakeAllAppend(c, [greeting[0]], [greeting[1]]);
      OneMessage(Take(c, greeting[0]), greeting[1]);
      FrameAt(share);
      Starts(logs, options, TakeAll(c, greeting), x.epoch, x.openAt, x.cutAt, x.taken - 2);
    }
  }

  lemma OneMessage(c: Client, m: Message)
    ensures TakeAll(c, [m]) == Take(c, m)
  {
    assert [m][..0] == [];
  }

  /** A connection that catches up. */
  lemma BackfillConnection(logs: Logs, capacity: nat, options: Options, c: Client, x: Connection)
    requires GoodLogs(logs) && capacity >= 1
    requires c.last.At? && Lossless(logs, options, c) && Possible(logs, capacity, options, c, x)
    requires c.last.epoch == x.epoch && !Since(logs(x.epoch)[..x.openAt], capacity, x.epoch, c.last).resync
    ensures x.taken != 1 ==> Lossless(logs, options, Connect(logs, capacity, options, c, x))
    ensures x.taken == 1 ==> Connect(logs, capacity, options, c, x) == c.(last := At(x.epoch, x.openAt))
  {
    hide Permits, Numbered, Sent, GoodLogs, Since, Filter, Frames;
    SentAfterBackfill(logs, capacity, options, x.epoch, c.last, x.openAt, x.cutAt);
    var share := Share(logs, options, x.epoch, c.last.num, x.cutAt);
    var hello := Hello(x.epoch, x.openAt);
    var sent := SentOn(logs, capacity, options, c, x);
    assert sent == [hello] + Frames(share);
    assert sent[..0] == [] && sent[..1] == [hello];
    OneMessage(c, hello);
    if x.taken >= 2 {
      PrefixOfJoined([hello], Frames(share), x.taken);
      TakeAllAppend(c, [hello], Frames(share)[..x.taken - 1]);
      FrameAt(share);
      TakePartOfShare(logs, options, Take(c, hello), x.epoch, c.last.num, x.cutAt, x.taken - 1);
    }
  }

  /** With only the greeting taken the client claims to stand at its position; it does so iff nothing was owed. */
  lemma AfterHelloOnly(logs: Logs, options: Options, c: Client, x: Connection)
    requires GoodLogs(logs) && c.last.At? && Lossless(logs, options, c) && x.taken == 1
    requires x.openAt <= |logs(x.epoch)| && (c.last.epoch == x.epoch ==> c.last.num <= x.openAt)
    ensures Lossless(logs, options, c.(last := At(x.epoch, x.openAt))) <==> !CutAfterHello(logs, options, c, x)
  {
    hide Permits, Numbered;
    if c.last.epoch == x.epoch {
      var log := logs(x.epoch);
      assert log[c.from..x.openAt] == log[c.from..c.last.num] + log[c.last.num..x.openAt];
      FilterAppend(log[c.from..c.last.num], log[c.last.num..x.openAt], Allowed(options));
    }
  }

  /**
   One connection, cut anywhere: the client stays without a hole exactly unless the cut fell right after the
   greeting while a resync or an allowed event was still owed.
   */
  lemma ConnectionLosesIffCutAfterHello(logs: Logs, capacity: nat, options: Options, c: Client, x: Connection)
    requires GoodLogs(logs) && capacity >= 1
    requires Lossless(logs, options, c) && Possible(logs, capacity, options, c, x)
    ensures Lossless(logs, options, Connect(logs, capacity, options, c, x)) <==> !CutAfterHello(logs, options, c, x)
  {
    hide Permits, Numbered, Sent, GoodLogs, Since, CutAfterHello, Connect;
    assert c.last.NoId? || c.last.At?;
    if c.last.NoId? {
      FirstConnection(logs, capacity, options, c, x);
      NotCut(logs, options, c, x);
    } else {
      if x.taken == 1 {
        AfterHelloOnly(logs, options, c, x);
      } else {
        NotCut(logs, options, c, x);
      }
      if Since(logs(x.epoch)[..x.openAt], capacity, x.epoch, c.last).resync {
        ResyncConnection(logs, capacity, options, c, x);
      } else {
        ForeignResyncs(logs(x.epoch)[..x.openAt], capacity, x.epoch, c.last);
        BackfillConnection(logs, capacity, options, c, x);
      }
    }
  }

  /** Someone who may see devices, and no alarms, on the whole stand. */
  const DEVICE_VIEWER := Options(NoId, {Devices}, None)

  /** A gateway whose first run saw one event. */
  function OneEventLogs(): Logs {
    (epoch: int) => if epoch == 1 then [Event(1, 1, Reading, [], "a")] else []
  }

  /**
   A client comes back with the id before event 1, gets the greeting of position 1 and is cut: it stands past the
   event without having received it, and the next connection sends a greeting and nothing else.
   */
  lemma CutAfterHelloLoses()
    ensures var logs, options, c := OneEventLogs(), DEVICE_VIEWER, Client(At(1, 0), 0, 1, []);
            var x := Connection(1, 1, 1, 1);
            && GoodLogs(logs) && Lossless(logs, options, c) && Possible(logs, 100, options, c, x)
            && var after := Connect(logs, 100, options, c, x);
            && after == c.(last := At(1, 1)) && !Lossless(logs, options, after)
            && SentOn(logs, 100, options, after, x) == [Hello(1, 1)]
  {
    hide Since, Filter, Frames;
    var logs, options, c := OneEventLogs(), DEVICE_VIEWER, Client(At(1, 0), 0, 1, []);
    var x := Connection(1, 1, 1, 1);
    var log, after := logs(1), c.(last := At(1, 1));
    assert log[0..0] == log[1..1] == [] && log[..1] == log[0..1] == [log[0]];
    NothingShared(options);
    OneShared(log[0], options);
    NoFrames();
    SinceIsExactOrResync(log, 100, 1, c.last);
    SinceIsExactOrResync(log, 100, 1, after.last);
    SentAfterBackfill(logs, 100, options, 1, c.last, 1, 1);
    SentAfterBackfill(logs, 100, options, 1, after.last, 1, 1);
    OneMessage(c, Hello(1, 1));
  }

  lemma NotCut(logs: Logs, options: Options, c: Client, x: Connection)
    requires c.last.NoId? || x.taken != 1
    ensures !CutAfterHello(logs, options, c, x)
  {
  }

  lemma ForeignResyncs(log: seq<Event>, capacity: nat, epoch: int, last: LastId)
    requires last.At? && !Since(log, capacity, epoch, last).resync
    ensures last.epoch == epoch
  {
  }

  // ---------------------------------------------------------------- any number of connections

  ghost predicate Run(logs: Logs, capacity: nat, options: Options, c: Client, xs: seq<Connection>, after: Client)
    decreases |xs|
  {
    if xs == [] then after == c
    else
      var x := xs[0];
      && Possible(logs, capacity, options, c, x)
      && (x.taken == 0 || WholeBurst(logs, capacity, options, c, x))
      && Run(logs, capacity, options, Connect(logs, capacity, options, c, x), xs[1..], after)
  }

  /** The opening frames arrived together. */
  ghost predicate WholeBurst(logs: Logs, capacity: nat, options: Options, c: Client, x: Connection)
    requires x.openAt <= |logs(x.epoch)|
  {
    x.taken >= |Burst(logs(x.epoch)[..x.openAt], capacity, x.epoch, options.(lastEventId := c.last))|
  }

  lemma WholeBurstIsNoCut(logs: Logs, capacity: nat, options: Options, c: Client, x: Connection)
    requires GoodLogs(logs) && capacity >= 1 && Lossless(logs, options, c)
    requires Possible(logs, capacity, options, c, x) && (x.taken == 0 || WholeBurst(logs, capacity, options, c, x))
    ensures !CutAfterHello(logs, options, c, x)
  {
    hide Permits, Filter, Frames;
    if x.taken == 1 && c.last.At? {
      var log := logs(x.epoch)[..x.openAt];
      assert Numbered(logs(x.epoch), x.epoch);
      SinceIsExactOrResync(log, capacity, x.epoch, c.last);
      var backfill := Since(log, capacity, x.epoch, c.last);
      assert !backfill.resync;
      assert backfill.events == log[c.last.num..] == logs(x.epoch)[c.last.num..x.openAt];
      FrameAt(Filter(backfill.events, Allowed(options.(lastEventId := c.last))));
      FilterSame(backfill.events, options, c.last);
    }
  }

  /**
   No silent loss: over any run of connections, across restarts and evictions, whose opening bursts arrive whole
   or not at all, what the client received since it last read everything is exactly its share of the log.
   */
  lemma {:induction false} NoSilentLoss(logs: Logs, capacity: nat, options: Options, c: Client, xs: seq<Connection>,
      after: Client)
    requires GoodLogs(logs) && capacity >= 1 && Lossless(logs, options, c)
    requires Run(logs, capacity, options, c, xs, after)
    ensures Lossless(logs, options, after)
    decreases |xs|
  {
    hide GoodLogs, Lossless, SentOn, WholeBurst, Connect, CutAfterHello;
    if xs != [] {
      WholeBurstIsNoCut(logs, capacity, options, c, xs[0]);
      ConnectionLosesIffCutAfterHello(logs, capacity, options, c, xs[0]);
      NoSilentLoss(logs, capacity, options, Connect(logs, capacity, options, c, xs[0]), xs[1..], after);
    }
  }

  /**
   The greeting and the last event of the log carry the same id, so a client that drops frames whose id it has
   seen drops the end of its own backfill.
   */
  lemma GreetingSharesAnId(logs: Logs, capacity: nat, options: Options, epoch: int, n: nat, openAt: nat)
    requires GoodLogs(logs) && capacity >= 1 && n < openAt <= |logs(epoch)|
    requires !Since(logs(epoch)[..openAt], capacity, epoch, At(epoch, n)).resync
    requires Permits(options, logs(epoch)[openAt - 1])
    ensures var burst := Burst(logs(epoch)[..openAt], capacity, epoch, options.(lastEventId := At(epoch, n)));
            && burst[0] == Hello(epoch, openAt)
            && burst[|burst| - 1] == Live(logs(epoch)[openAt - 1]) && logs(epoch)[openAt - 1].num == openAt
            && |burst| > 1
  {
    hide Permits, Since;
    var log := logs(epoch)[..openAt];
    assert Numbered(logs(epoch), epoch);
    SinceIsExactOrResync(log, capacity, epoch, At(epoch, n));
    var backfill := Since(log, capacity, epoch, At(epoch, n));
    assert backfill.events == log[n..];
    FilterSame(backfill.events, options, At(epoch, n));
    var front := log[n..openAt - 1];
    assert log[n..] == front + [log[openAt - 1]];
    FilterAppend(front, [log[openAt - 1]], Allowed(options));
    assert Filter([log[openAt - 1]], Allowed(options)) == [log[openAt - 1]];
    FrameAt(Filter(backfill.events, Allowed(options)));
  }
}
