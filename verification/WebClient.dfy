/**
The page's own client of the live channel. It drops every frame whose id it has seen, so what `LiveClient` proves
of a client that takes every frame has to be asked again.
*/
module WebClient {
  import opened Wrappers
  import opened Sequences
  import opened LiveRing
  import opened LiveBus
  import opened LiveClient

  /** Epoch and number of a frame's id. */
  type Id = (int, int)

  /** How many ids the page remembers before it starts over with the latest. */
  const SEEN_LIMIT: nat := 4_000

  /** `shown` is what reached the screens, `rereads` how often the page was told to read everything again. */
  datatype Page = Page(last: LastId, seen: set<Id>, shown: seq<Event>, rereads: nat)

  function IdOf(m: Message): Id {
    match m
    case Hello(e, n) => (e, n)
    case Resync(e, n, _) => (e, n)
    case Live(event) => IdOfEvent(event)
  }

  function IdOfEvent(e: Event): Id {
    (e.epoch, e.num)
  }

  function Remember(seen: set<Id>, id: Id): set<Id> {
    if |seen + {id}| > SEEN_LIMIT then {id} else seen + {id}
  }

  predicate Visible(e: Event) {
    e.kind != Ping
  }

  function Handled(c: Page, m: Message): Page {
    var id := IdOf(m);
    if id in c.seen then c
    else
      var noted := c.(last := At(id.0, id.1), seen := Remember(c.seen, id));
      match m
      case Hello(_, _) => noted
      case Resync(_, _, _) => noted.(rereads := c.rereads + 1)
      case Live(event) => if Visible(event) then noted.(shown := c.shown + [event]) else noted
  }

  function HandleAll(c: Page, ms: seq<Message>): Page {
    if ms == [] then c else Handled(HandleAll(c, ms[..|ms| - 1]), ms[|ms| - 1])
  }

  /** One frame as the page's handler treats it. */
  class EventStream {
    var last: LastId
    var seen: set<Id>
    var shown: seq<Event>
    var rereads: nat

    function Contents(): Page
      reads this
    {
      Page(last, seen, shown, rereads)
    }

    constructor (last: LastId)
      ensures Contents() == Page(last, {}, [], 0)
    {
      this.last, seen, shown, rereads := last, {}, [], 0;
    }

    method Handle(m: Message)
      modifies this
      ensures Contents() == Handled(old(Contents()), m)
    {
      var id := IdOf(m);
      if id in seen {
        return;
      }
      seen := seen + {id};
      if |seen| > SEEN_LIMIT {
        seen := {id};
      }
      last := At(id.0, id.1);
      match m
      case Hello(_, _) =>
      case Resync(_, _, _) => rereads := rereads + 1;
      case Live(event) =>
        if event.kind != Ping {
          shown := shown + [event];
        }
    }
  }

  lemma {:induction false} HandledInParts(c: Page, a: seq<Message>, b: seq<Message>)
    ensures HandleAll(c, a + b) == HandleAll(HandleAll(c, a), b)
  {
    hide Handled;
    if b == [] {
      assert a + b == a;
    } else {
      assert (a + b)[..|a + b| - 1] == a + b[..|b| - 1];
      HandledInParts(c, a, b[..|b| - 1]);
    }
  }

  lemma HandledOne(c: Page, m: Message)
    ensures HandleAll(c, [m]) == Handled(c, m)
  {
    assert [m][..0] == [];
  }

  // ---------------------------------------------------------------- which frames are dropped

  ghost function Ids(events: seq<Event>): set<Id> {
    set e | e in events :: IdOfEvent(e)
  }

  ghost predicate IdsDiffer(events: seq<Event>) {
    forall i, j :: 0 <= i < j < |events| ==> IdOfEvent(events[i]) != IdOfEvent(events[j])
  }

  function Shown(events: seq<Event>): seq<Event> {
    Filter(events, Visible)
  }

  /** The id was remembered to begin with, and the memory has not started over since. */
  ghost predicate Dropped(seen: set<Id>, events: seq<Event>, i: nat)
    requires i < |events|
  {
    IdOfEvent(events[i]) in seen && |seen + Ids(events[..i])| <= SEEN_LIMIT
  }

  /** What is visible and not dropped. */
  ghost function Kept(seen: set<Id>, events: seq<Event>): seq<Event> {
    if events == [] then []
    else
      var n := |events| - 1;
      Kept(seen, events[..n]) + if Visible(events[n]) && !Dropped(seen, events, n) then [events[n]] else []
  }

  ghost predicate DropsSomethingVisible(seen: set<Id>, events: seq<Event>) {
    exists i :: 0 <= i < |events| && Visible(events[i]) && Dropped(seen, events, i)
  }

  lemma NoIds()
    ensures Ids([]) == {}
  {
  }

  lemma IdsOfOneMore(events: seq<Event>)
    requires events != []
    ensures Ids(events) == Ids(events[..|events| - 1]) + {IdOfEvent(events[|events| - 1])}
  {
    assert events == events[..|events| - 1] + [events[|events| - 1]];
  }

  /** What the page remembers after frames with these ids. */
  ghost predicate Remembers(seen: set<Id>, ids: set<Id>, after: set<Id>) {
    if |seen + ids| <= SEEN_LIMIT then after == seen + ids else after <= ids
  }

  lemma OneMoreRemembered(seen: set<Id>, ids: set<Id>, after: set<Id>, id: Id)
    requires |seen| <= SEEN_LIMIT && Remembers(seen, ids, after) && id !in ids
    ensures id in after <==> id in seen && |seen + ids| <= SEEN_LIMIT
    ensures Remembers(seen, ids + {id}, if id in after then after else Remember(after, id))
  {
    assert seen + (ids + {id}) == (seen + ids) + {id};
    if id in seen {
      assert seen + ids + {id} == seen + ids;
    } else {
      assert |seen + ids + {id}| == |seen + ids| + 1;
    }
  }

  lemma OneMoreDropped(seen: set<Id>, after: set<Id>, events: seq<Event>)
    requires events != [] && |seen| <= SEEN_LIMIT && IdsDiffer(events)
    requires Remembers(seen, Ids(events[..|events| - 1]), after)
    ensures var id := IdOfEvent(events[|events| - 1]);
            && (id in after <==> Dropped(seen, events, |events| - 1))
            && Remembers(seen, Ids(events), if id in after then after else Remember(after, id))
  {
    hide Ids, Remembers, Remember, IdsDiffer;
    var n := |events| - 1;
    NotAmong(events);
    OneMoreRemembered(seen, Ids(events[..n]), after, IdOfEvent(events[n]));
    IdsOfOneMore(events);
  }

  /** One more frame of those with different ids. */
  lemma OneMoreKept(c: Page, mid: Page, events: seq<Event>)
    requires events != [] && |c.seen| <= SEEN_LIMIT && IdsDiffer(events)
    requires mid.shown == c.shown + Kept(c.seen, events[..|events| - 1])
    requires Remembers(c.seen, Ids(events[..|events| - 1]), mid.seen)
    ensures Handled(mid, Live(events[|events| - 1])).shown == c.shown + Kept(c.seen, events)
    ensures Remembers(c.seen, Ids(events), Handled(mid, Live(events[|events| - 1])).seen)
  {
    hide Ids, Visible, Remembers, Remember, IdsDiffer, Dropped, IdOfEvent;
    OneMoreDropped(c.seen, mid.seen, events);
  }

  /** Frames with different ids: the page shows exactly those that are visible and not dropped. */
  lemma {:induction false} PageKeeps(c: Page, events: seq<Event>)
    requires |c.seen| <= SEEN_LIMIT && IdsDiffer(events)
    ensures HandleAll(c, Frames(events)).shown == c.shown + Kept(c.seen, events)
    ensures Remembers(c.seen, Ids(events), HandleAll(c, Frames(events)).seen)
  {
    hide Frames, Ids, HandleAll, Handled;
    if events == [] {
      NoFrames();
      NoIds();
      NothingHandled(c);
      assert c.seen + {} == c.seen;
    } else {
      hide Kept, Remembers;
      var n := |events| - 1;
      var mid := HandleAll(c, Frames(events[..n]));
      PageKeeps(c, events[..n]);
      FramesOfFront(events);
      HandledInParts(c, Frames(events[..n]), [Live(events[n])]);
      HandledOne(mid, Live(events[n]));
      OneMoreKept(c, mid, events);
    }
  }

  lemma NothingHandled(c: Page)
    ensures HandleAll(c, []) == c
  {
  }

  /** Everything visible is kept exactly if nothing visible is dropped; otherwise less is kept. */
  lemma {:induction false} KeptIsShownIff(seen: set<Id>, events: seq<Event>)
    ensures Kept(seen, events) == Shown(events) <==> !DropsSomethingVisible(seen, events)
    ensures |Kept(seen, events)| <= |Shown(events)|
    ensures DropsSomethingVisible(seen, events) ==> |Kept(seen, events)| < |Shown(events)|
  {
    hide Ids, Visible;
    if events != [] {
      var n := |events| - 1;
      var front := events[..n];
      KeptIsShownIff(seen, front);
      forall i | 0 <= i < n ensures Dropped(seen, events, i) <==> Dropped(seen, front, i) {
        assert front[..i] == events[..i];
      }
      if DropsSomethingVisible(seen, front) {
        var i :| 0 <= i < n && Visible(front[i]) && Dropped(seen, front, i);
        assert Visible(events[i]) && Dropped(seen, events, i);
      }
    }
  }

  lemma NotAmong(events: seq<Event>)
    requires events != [] && IdsDiffer(events)
    ensures IdOfEvent(events[|events| - 1]) !in Ids(events[..|events| - 1])
  {
  }

  // ---------------------------------------------------------------- one whole connection

  /** The page after everything sent down a connection opened with its last id, which is never cut. */
  function Connected(c: Page, log: seq<Event>, capacity: nat, epoch: int, options: Options, openAt: nat): Page
    requires openAt <= |log|
  {
    HandleAll(c, Sent(log, capacity, epoch, options.(lastEventId := c.last), openAt))
  }

  /** A resync is owed: the ring cannot tell what came after the page's last id. */
  predicate ResyncOwed(c: Page, log: seq<Event>, capacity: nat, epoch: int, openAt: nat)
    requires openAt <= |log|
  {
    Since(log[..openAt], capacity, epoch, c.last).resync
  }

  /** The events the page is owed otherwise: its share of what came after its last id, or of all to come. */
  function Owed(c: Page, log: seq<Event>, options: Options, openAt: nat): seq<Event>
    requires openAt <= |log|
  {
    if c.last.At? && 0 <= c.last.num <= openAt then Filter(log[c.last.num..], Allowed(options))
    else Filter(log[openAt..], Allowed(options))
  }

  /** Told to read again when that was owed, and shown everything owed otherwise. */
  ghost predicate Satisfied(
    c: Page, after: Page, log: seq<Event>, capacity: nat, epoch: int, options: Options, openAt: nat)
    requires openAt <= |log|
  {
    if ResyncOwed(c, log, capacity, epoch, openAt) then after.rereads > c.rereads
    else after.shown == c.shown + Shown(Owed(c, log, options, openAt))
  }

  /** What the page remembers once it has handled the greeting. */
  function SeenAfterHello(c: Page, epoch: int, openAt: nat): set<Id> {
    if (epoch, openAt) in c.seen then c.seen else Remember(c.seen, (epoch, openAt))
  }

  /**
   The last backfilled event carries the greeting's id, is not a ping, and the greeting is still remembered when it
   arrives.
   */
  predicate TailRepeatsGreeting(c: Page, log: seq<Event>, epoch: int, options: Options, openAt: nat)
    requires openAt <= |log|
  {
    && c.last.At? && 0 <= c.last.num < openAt
    && Permits(options, log[openAt - 1]) && Visible(log[openAt - 1])
    && |SeenAfterHello(c, epoch, openAt)| + |Filter(log[c.last.num..openAt - 1], Allowed(options))| <= SEEN_LIMIT
  }

  lemma GreetingIsRemembered(c: Page, epoch: int, openAt: nat)
    requires |c.seen| <= SEEN_LIMIT
    ensures var after := Handled(c, Hello(epoch, openAt));
            && after.seen == SeenAfterHello(c, epoch, openAt) && (epoch, openAt) in after.seen
            && |after.seen| <= SEEN_LIMIT && after.shown == c.shown && after.rereads == c.rereads
            && after.seen <= c.seen + {(epoch, openAt)}
  {
  }

  /** The demand to read again has the greeting's id, so it is dropped, whatever the page has seen before. */
  lemma ResyncIsDropped(c: Page, epoch: int, openAt: nat, reason: Option<Reason>)
    requires |c.seen| <= SEEN_LIMIT
    ensures Handled(Handled(c, Hello(epoch, openAt)), Resync(epoch, openAt, reason)) == Handled(c, Hello(epoch, openAt))
  {
    GreetingIsRemembered(c, epoch, openAt);
  }

  ghost predicate Rising(events: seq<Event>) {
    forall i, j :: 0 <= i < j < |events| ==> events[i].num < events[j].num
  }

  lemma {:induction false} ShareIsNumbered(log: seq<Event>, epoch: int, options: Options, from: nat, upTo: nat)
    requires Numbered(log, epoch) && from <= upTo <= |log|
    ensures var share := Filter(log[from..upTo], Allowed(options));
            && (forall i :: 0 <= i < |share| ==> share[i].epoch == epoch && from < share[i].num <= upTo)
            && Rising(share)
    decreases upTo
  {
    hide Permits, Filter, Numbered;
    if from < upTo {
      ShareIsNumbered(log, epoch, options, from, upTo - 1);
      assert log[from..upTo] == log[from..upTo - 1] + [log[upTo - 1]];
      FilterAppend(log[from..upTo - 1], [log[upTo - 1]], Allowed(options));
      OneShared(log[upTo - 1], options);
      NumberAt(log, epoch, upTo - 1);
    } else {
      assert log[from..upTo] == [];
      NothingShared(options);
    }
  }

  /** Of the events owed none is remembered: the page starts afresh, or has handled nothing past its last id. */
  ghost predicate NothingOwedSeen(c: Page, log: seq<Event>, options: Options, openAt: nat)
    requires openAt <= |log|
  {
    forall e :: e in Owed(c, log, options, openAt) ==> IdOfEvent(e) !in c.seen
  }

  lemma RisingIdsDiffer(events: seq<Event>)
    requires Rising(events)
    ensures forall i, j :: 0 <= i < j < |events| ==> IdOfEvent(events[i]) != IdOfEvent(events[j])
  {
    forall i, j | 0 <= i < j < |events| ensures IdOfEvent(events[i]) != IdOfEvent(events[j]) {
      assert events[i].num < events[j].num;
    }
  }

  /** Events alone never make the page read again. */
  lemma {:induction false} EventsAreNoDemand(c: Page, events: seq<Event>)
    ensures HandleAll(c, Frames(events)).rereads == c.rereads
  {
    hide Frames;
    if events == [] {
      NoFrames();
    } else {
      var n := |events| - 1;
      EventsAreNoDemand(c, events[..n]);
      FramesOfFront(events);
      HandledInParts(c, Frames(events[..n]), [Live(events[n])]);
      HandledOne(HandleAll(c, Frames(events[..n])), Live(events[n]));
    }
  }

  /** Where the events past a position come from. */
  lemma TailIsLater(log: seq<Event>, epoch: int, options: Options, openAt: nat)
    requires Numbered(log, epoch) && openAt <= |log|
    ensures forall e :: e in Filter(log[openAt..], Allowed(options)) ==> e.epoch == epoch && e.num > openAt
  {
    FilterMembers(log[openAt..], Allowed(options));
    forall e | e in log[openAt..] ensures e.epoch == epoch && e.num > openAt {
      var i :| 0 <= i < |log[openAt..]| && log[openAt..][i] == e;
      assert log[openAt + i] == e;
    }
  }

  // ---------------------------------------------------------------- when the page loses something

  lemma GreetingFirst(c: Page, epoch: int, openAt: nat, rest: seq<Message>)
    ensures HandleAll(c, [Hello(epoch, openAt)] + rest) == HandleAll(Handled(c, Hello(epoch, openAt)), rest)
  {
    HandledInParts(c, [Hello(epoch, openAt)], rest);
    HandledOne(c, Hello(epoch, openAt));
  }

  /** Where a resync is owed, the page is never told. */
  lemma OwedResyncIsLost(
    c: Page, log: seq<Event>, capacity: nat, epoch: int, options: Options, openAt: nat)
    requires openAt <= |log| && |c.seen| <= SEEN_LIMIT && ResyncOwed(c, log, capacity, epoch, openAt)
    ensures Connected(c, log, capacity, epoch, options, openAt).rereads == c.rereads
  {
    hide Since, Permits, Frames, HandleAll, Handled, Remember;
    var backfill := Since(log[..openAt], capacity, epoch, c.last);
    var options1 := options.(lastEventId := c.last);
    var tail := Filter(log[openAt..], Allowed(options1));
    var demand := Resync(epoch, openAt, backfill.reason);
    assert Burst(log[..openAt], capacity, epoch, options1) == [Hello(epoch, openAt)] + [demand];
    assert Sent(log, capacity, epoch, options1, openAt) == [Hello(epoch, openAt)] + ([demand] + Frames(tail));
    GreetingFirst(c, epoch, openAt, [demand] + Frames(tail));
    var greeted := Handled(c, Hello(epoch, openAt));
    HandledInParts(greeted, [demand], Frames(tail));
    HandledOne(greeted, demand);
    ResyncIsDropped(c, epoch, openAt, backfill.reason);
    GreetingIsRemembered(c, epoch, openAt);
    EventsAreNoDemand(greeted, tail);
  }

  /** Without a resync the page is sent the greeting and then all it is owed. */
  lemma SentIsOwed(c: Page, log: seq<Event>, capacity: nat, epoch: int, options: Options, openAt: nat)
    requires Numbered(log, epoch) && capacity >= 1 && openAt <= |log|
    requires !ResyncOwed(c, log, capacity, epoch, openAt)
    ensures Sent(log, capacity, epoch, options.(lastEventId := c.last), openAt) ==
            [Hello(epoch, openAt)] + Frames(Owed(c, log, options, openAt))
    ensures c.last.At? ==> c.last.epoch == epoch && c.last.num <= openAt
  {
    hide Since, Permits, Frames, Filter, Numbered;
    var options1 := options.(lastEventId := c.last);
    PrefixIsNumbered(log, epoch, openAt);
    SinceIsExactOrResync(log[..openAt], capacity, epoch, c.last);
    var backfill := Since(log[..openAt], capacity, epoch, c.last);
    if c.last.At? {
      ForeignResyncs(log[..openAt], capacity, epoch, c.last);
    }
    FilterSame(backfill.events, options, c.last);
    FilterSame(log[openAt..], options, c.last);
    NothingShared(options);
    NoFrames();
    var early, late := Filter(backfill.events, Allowed(options)), Filter(log[openAt..], Allowed(options));
    assert Sent(log, capacity, epoch, options1, openAt) == [Hello(epoch, openAt)] + Frames(early) + Frames(late);
    FramesAppend(early, late);
    FilterAppend(backfill.events, log[openAt..], Allowed(options));
    if c.last.At? && 0 <= c.last.num <= openAt {
      assert log[c.last.num..] == log[..openAt][c.last.num..] + log[openAt..];
    } else {
      assert backfill.events == [];
      assert [] + log[openAt..] == log[openAt..];
    }
  }

  lemma OwedIdsDiffer(c: Page, log: seq<Event>, epoch: int, options: Options, openAt: nat)
    requires Numbered(log, epoch) && openAt <= |log|
    ensures IdsDiffer(Owed(c, log, options, openAt))
  {
    hide Numbered, Filter;
    assert log[openAt..|log|] == log[openAt..];
    ShareIsNumbered(log, epoch, options, openAt, |log|);
    if c.last.At? && 0 <= c.last.num <= openAt {
      assert log[c.last.num..|log|] == log[c.last.num..];
      ShareIsNumbered(log, epoch, options, c.last.num, |log|);
    }
    RisingIdsDiffer(Owed(c, log, options, openAt));
  }

  /**
   A page that is owed no resync, wherever the connection is cut after the greeting, is shown of the owed events that
   came everything visible but those whose ids it still remembers: from this greeting or from earlier connections.
   */
  lemma PageShows(
    c: Page, log: seq<Event>, capacity: nat, epoch: int, options: Options, openAt: nat, taken: nat)
    requires Numbered(log, epoch) && capacity >= 1 && openAt <= |log| && |c.seen| <= SEEN_LIMIT
    requires !ResyncOwed(c, log, capacity, epoch, openAt)
    ensures var sent := Sent(log, capacity, epoch, options.(lastEventId := c.last), openAt);
            var owed := Owed(c, log, options, openAt);
            && |sent| == 1 + |owed|
            && (taken <= |owed| ==>
                  HandleAll(c, sent[..1 + taken]).shown ==
                  c.shown + Kept(SeenAfterHello(c, epoch, openAt), owed[..taken]))
  {
    hide Since, Permits, Frames, HandleAll, Handled, Numbered, ResyncOwed, Owed, Kept, Remembers;
    SentIsOwed(c, log, capacity, epoch, options, openAt);
    var owed := Owed(c, log, options, openAt);
    FrameAt(owed);
    if taken <= |owed| {
      FramesPrefix(owed, taken);
      assert ([Hello(epoch, openAt)] + Frames(owed))[..1 + taken] == [Hello(epoch, openAt)] + Frames(owed[..taken]);
      GreetingFirst(c, epoch, openAt, Frames(owed[..taken]));
      GreetingIsRemembered(c, epoch, openAt);
      OwedIdsDiffer(c, log, epoch, options, openAt);
      PageKeeps(Handled(c, Hello(epoch, openAt)), owed[..taken]);
    }
  }

  /**
   The page's client, over one connection that is never cut, whatever it remembers from earlier ones: it loses
   something exactly if it is owed a resync, or if it still remembers the id of a visible event it is owed.
   */
  lemma PageLosesIff(c: Page, log: seq<Event>, capacity: nat, epoch: int, options: Options, openAt: nat)
    requires Numbered(log, epoch) && capacity >= 1 && openAt <= |log| && |c.seen| <= SEEN_LIMIT
    ensures var after := Connected(c, log, capacity, epoch, options, openAt);
            !Satisfied(c, after, log, capacity, epoch, options, openAt) <==>
            ResyncOwed(c, log, capacity, epoch, openAt)
            || DropsSomethingVisible(SeenAfterHello(c, epoch, openAt), Owed(c, log, options, openAt))
  {
    hide Connected, ResyncOwed, Owed, Shown, Kept, DropsSomethingVisible, SeenAfterHello, Sent, HandleAll;
    if ResyncOwed(c, log, capacity, epoch, openAt) {
      OwedResyncIsLost(c, log, capacity, epoch, options, openAt);
    } else {
      var seen, owed := SeenAfterHello(c, epoch, openAt), Owed(c, log, options, openAt);
      PageShows(c, log, capacity, epoch, options, openAt, |owed|);
      ConnectedIs(c, log, capacity, epoch, options, openAt);
      var sent := Sent(log, capacity, epoch, options.(lastEventId := c.last), openAt);
      assert owed[..|owed|] == owed && sent[..|sent|] == sent;
      KeptIsShownIff(seen, owed);
      assert |c.shown + Kept(seen, owed)| < |c.shown + Shown(owed)| <==> |Kept(seen, owed)| < |Shown(owed)|;
    }
  }

  // ---------------------------------------------------------------- a page that remembers none of the owed events

  /** New ids that differ add up. */
  lemma {:induction false} IdsCount(seen: set<Id>, events: seq<Event>)
    requires IdsDiffer(events) && forall i :: 0 <= i < |events| ==> IdOfEvent(events[i]) !in seen
    ensures |seen + Ids(events)| == |seen| + |events|
  {
    hide Ids;
    if events == [] {
      NoIds();
      assert seen + {} == seen;
    } else {
      var n := |events| - 1;
      IdsCount(seen, events[..n]);
      IdsOfOneMore(events);
      NotAmong(events);
      var id := IdOfEvent(events[n]);
      assert seen + Ids(events) == seen + Ids(events[..n]) + {id};
    }
  }

  /** What is owed up to the greeting's position, its last event apart, and what comes after. */
  lemma OwedInParts(log: seq<Event>, epoch: int, options: Options, n: nat, openAt: nat)
    requires Numbered(log, epoch) && n < openAt <= |log|
    ensures var early := Filter(log[n..openAt - 1], Allowed(options));
            var late := Filter(log[openAt..], Allowed(options));
            var last := log[openAt - 1];
            && Filter(log[n..], Allowed(options)) == early + (if Permits(options, last) then [last] else []) + late
            && IdOfEvent(last) == (epoch, openAt) && IdsDiffer(early)
            && (forall i :: 0 <= i < |early| ==> early[i].num < openAt)
            && (forall i :: 0 <= i < |late| ==> late[i].num > openAt)
  {
    hide Filter, Numbered, Permits;
    var last := log[openAt - 1];
    assert log[n..] == log[n..openAt - 1] + [last] + log[openAt..];
    FilterAppend(log[n..openAt - 1] + [last], log[openAt..], Allowed(options));
    FilterAppend(log[n..openAt - 1], [last], Allowed(options));
    OneShared(last, options);
    NumberAt(log, epoch, openAt - 1);
    ShareIsNumbered(log, epoch, options, n, openAt - 1);
    RisingIdsDiffer(Filter(log[n..openAt - 1], Allowed(options)));
    assert log[openAt..|log|] == log[openAt..];
    ShareIsNumbered(log, epoch, options, openAt, |log|);
  }

  /** The one event that can be dropped after the greeting of its number. */
  lemma OnlyTheTailIsDropped(c: Page, log: seq<Event>, epoch: int, options: Options, openAt: nat)
    requires Numbered(log, epoch) && openAt <= |log| && |c.seen| <= SEEN_LIMIT
    requires NothingOwedSeen(c, log, options, openAt)
    requires c.last.At? && 0 <= c.last.num < openAt
    ensures DropsSomethingVisible(SeenAfterHello(c, epoch, openAt), Owed(c, log, options, openAt)) <==>
            TailRepeatsGreeting(c, log, epoch, options, openAt)
  {
    hide Filter, Numbered, Permits, Ids, Visible, SeenAfterHello, Handled;
    var seen, owed := SeenAfterHello(c, epoch, openAt), Owed(c, log, options, openAt);
    var early, last := Filter(log[c.last.num..openAt - 1], Allowed(options)), log[openAt - 1];
    OwedInParts(log, epoch, options, c.last.num, openAt);
    GreetingIsRemembered(c, epoch, openAt);
    forall i | 0 <= i < |owed| ensures IdOfEvent(owed[i]) in seen <==> i == |early| && Permits(options, last) {
      assert owed[i] in owed;
    }
    IdsCount(seen, early);
    if Permits(options, last) {
      assert owed[|early|] == last && owed[..|early|] == early;
    }
  }

  /** A page that remembers none of the owed events loses, apart from a resync, the end of its backfill at most. */
  lemma FreshPageLosesIff(c: Page, log: seq<Event>, capacity: nat, epoch: int, options: Options, openAt: nat)
    requires Numbered(log, epoch) && capacity >= 1 && openAt <= |log| && |c.seen| <= SEEN_LIMIT
    requires NothingOwedSeen(c, log, options, openAt)
    ensures var after := Connected(c, log, capacity, epoch, options, openAt);
            !Satisfied(c, after, log, capacity, epoch, options, openAt) <==>
            ResyncOwed(c, log, capacity, epoch, openAt) || TailRepeatsGreeting(c, log, epoch, options, openAt)
  {
    hide Connected, ResyncOwed, DropsSomethingVisible, SeenAfterHello, Satisfied, Numbered, Permits, Filter;
    PageLosesIff(c, log, capacity, epoch, options, openAt);
    if c.last.At? && 0 <= c.last.num < openAt {
      OnlyTheTailIsDropped(c, log, epoch, options, openAt);
    } else {
      NothingBeforeTheGreeting(c, log, epoch, options, openAt);
    }
  }

  lemma NothingBeforeTheGreeting(c: Page, log: seq<Event>, epoch: int, options: Options, openAt: nat)
    requires Numbered(log, epoch) && openAt <= |log| && |c.seen| <= SEEN_LIMIT
    requires NothingOwedSeen(c, log, options, openAt)
    requires !(c.last.At? && 0 <= c.last.num < openAt)
    ensures !DropsSomethingVisible(SeenAfterHello(c, epoch, openAt), Owed(c, log, options, openAt))
  {
    hide Numbered, Permits, Filter, Ids, Visible, SeenAfterHello, Handled;
    var owed := Owed(c, log, options, openAt);
    GreetingIsRemembered(c, epoch, openAt);
    forall i | 0 <= i < |owed| ensures IdOfEvent(owed[i]) !in SeenAfterHello(c, epoch, openAt) {
      assert owed[i] in owed;
      TailIsLater(log, epoch, options, openAt);
    }
  }

  // ---------------------------------------------------------------- concrete connections

  function SampleLog(): seq<Event> {
    [Event(1, 1, Reading, [], "a"), Event(1, 2, Reading, [], "b")]
  }

  /** A page that has seen event 1 and reconnects after event 2 is never shown it. */
  lemma LastEventIsLost()
    ensures var c := Page(At(1, 1), {}, [], 0);
            var after := Connected(c, SampleLog(), 100, 1, DEVICE_VIEWER, 2);
            && Owed(c, SampleLog(), DEVICE_VIEWER, 2) == [SampleLog()[1]] && after.shown == []
  {
    hide Since, Filter, Frames, HandleAll, Permits, Shown, Connected, Sent;
    var c := Page(At(1, 1), {}, [], 0);
    var log := SampleLog();
    SampleAnswer();
    SentIsOwed(c, log, 100, 1, DEVICE_VIEWER, 2);
    OneFrameOf(log[1]);
    assert Connected(c, log, 100, 1, DEVICE_VIEWER, 2) == HandleAll(c, [Hello(1, 2)] + [Live(log[1])]) by {
      ConnectedIs(c, log, 100, 1, DEVICE_VIEWER, 2);
    }
    GreetingFirst(c, 1, 2, [Live(log[1])]);
    HandledOne(Handled(c, Hello(1, 2)), Live(log[1]));
  }

  lemma ConnectedIs(c: Page, log: seq<Event>, capacity: nat, epoch: int, options: Options, openAt: nat)
    requires openAt <= |log|
    ensures Connected(c, log, capacity, epoch, options, openAt) ==
            HandleAll(c, Sent(log, capacity, epoch, options.(lastEventId := c.last), openAt))
  {
    hide Sent, HandleAll;
  }

  lemma OneFrameOf(e: Event)
    ensures Frames([e]) == [Live(e)]
  {
    assert [e][..0] == [];
  }

  lemma SampleAnswer()
    ensures Numbered(SampleLog(), 1) && !Since(SampleLog()[..2], 100, 1, At(1, 1)).resync
    ensures Owed(Page(At(1, 1), {}, [], 0), SampleLog(), DEVICE_VIEWER, 2) == [SampleLog()[1]]
  {
    hide Filter;
    var log := SampleLog();
    assert log[1..] == [log[1]] && log[..2] == log;
    OneShared(log[1], DEVICE_VIEWER);
    assert Permits(DEVICE_VIEWER, log[1]);
    SinceIsExactOrResync(log, 100, 1, At(1, 1));
  }

  /** A page that comes back with an id of the gateway's former run is never told to read everything again. */
  lemma RestartGoesUnnoticed()
    ensures var c := Page(At(0, 7), {}, [], 0);
            var after := Connected(c, SampleLog(), 100, 1, DEVICE_VIEWER, 2);
            ResyncOwed(c, SampleLog(), 100, 1, 2) && after.rereads == 0 && after.shown == []
  {
    var c := Page(At(0, 7), {}, [], 0);
    var log := SampleLog();
    OwedResyncIsLost(c, log, 100, 1, DEVICE_VIEWER, 2);
    var options1 := DEVICE_VIEWER.(lastEventId := c.last);
    assert log[2..] == [] && log[..2] == log;
    var demand := Resync(1, 2, Some(UnknownEpoch));
    assert Burst(log, 100, 1, options1) == [Hello(1, 2), demand];
    assert Frames(Filter([], Allowed(options1))) == [];
    assert Sent(log, 100, 1, options1, 2) == [Hello(1, 2)] + [demand];
    GreetingFirst(c, 1, 2, [demand]);
    HandledOne(Handled(c, Hello(1, 2)), demand);
    ResyncIsDropped(c, 1, 2, demand.reason);
  }

  /** Four events, of which a page without the right to alarms may not see the last. */
  function LongerLog(): seq<Event> {
    SampleLog() + [Event(1, 3, Reading, [], "c"), Event(1, 4, Alarm, [], "d")]
  }

  /** The page after two connections that were cut: the first after event 1, the second after event 2. */
  function CutTwice(): Page {
    var log := LongerLog();
    Page(At(1, 2), {(1, 0), (1, 1), (1, 3), (1, 2)}, [log[0], log[1]], 0)
  }

  /** Of the longer log the page may see all but the last event. */
  lemma LongerLogShared(from: nat, upTo: nat)
    requires from <= upTo <= 4 && from <= 3
    ensures Numbered(LongerLog(), 1)
    ensures Filter(LongerLog()[from..upTo], Allowed(DEVICE_VIEWER)) == LongerLog()[from..if upTo <= 3 then upTo else 3]
  {
    hide Filter;
    var log := LongerLog();
    var seen := log[from..if upTo <= 3 then upTo else 3];
    forall e | e in seen ensures Permits(DEVICE_VIEWER, e) {
      assert e.kind == Reading;
    }
    FilterAll(seen, Allowed(DEVICE_VIEWER));
    if upTo == 4 {
      assert log[from..4] == seen + [log[3]];
      FilterAppend(seen, [log[3]], Allowed(DEVICE_VIEWER));
      OneShared(log[3], DEVICE_VIEWER);
    } else {
      assert log[from..upTo] == seen;
    }
  }

  /** What a page that holds this last id is sent of the longer log, opened at one length and read up to another. */
  lemma LongerLogSent(c: Page, n: nat, openAt: nat, upTo: nat)
    requires n <= openAt <= upTo <= 4 && n <= 3 && c.last == if n == 0 then NoId else At(1, n)
    requires c.last.NoId? ==> openAt == 0
    ensures var log := LongerLog()[..upTo];
            && Numbered(log, 1) && !ResyncOwed(c, log, 100, 1, openAt)
            && Owed(c, log, DEVICE_VIEWER, openAt) == LongerLog()[n..if upTo <= 3 then upTo else 3]
            && Sent(log, 100, 1, DEVICE_VIEWER.(lastEventId := c.last), openAt) ==
               [Hello(1, openAt)] + Frames(Owed(c, log, DEVICE_VIEWER, openAt))
  {
    hide Since, Filter, Sent, Frames, Permits, LongerLog, Numbered;
    LongerLogHas();
    var log := LongerLog()[..upTo];
    LongerLogShared(n, upTo);
    PrefixIsNumbered(LongerLog(), 1, upTo);
    PrefixIsNumbered(log, 1, openAt);
    SinceIsExactOrResync(log[..openAt], 100, 1, c.last);
    assert log[n..] == LongerLog()[n..upTo];
    SentIsOwed(c, log, 100, 1, DEVICE_VIEWER, openAt);
  }

  lemma LongerLogHas()
    ensures |LongerLog()| == 4 && Numbered(LongerLog(), 1)
    ensures forall i :: 0 <= i < 3 ==> Visible(LongerLog()[i]) && IdOfEvent(LongerLog()[i]) == (1, i + 1)
    ensures !Permits(DEVICE_VIEWER, LongerLog()[3])
  {
  }

  lemma HandledTwo(c: Page, a: Message, b: Message)
    ensures HandleAll(c, [a, b]) == Handled(Handled(c, a), b)
  {
    hide Handled;
    assert [a, b] == [a] + [b];
    HandledInParts(c, [a], [b]);
    HandledOne(c, a);
    HandledOne(Handled(c, a), b);
  }

  lemma GreetingThenEvent(c: Page, openAt: nat, e: Event)
    requires |c.seen| + 2 <= SEEN_LIMIT && Visible(e)
    requires (1, openAt) !in c.seen && IdOfEvent(e) !in c.seen + {(1, openAt)}
    ensures Handled(Handled(c, Hello(1, openAt)), Live(e)) ==
            Page(At(e.epoch, e.num), c.seen + {(1, openAt)} + {IdOfEvent(e)}, c.shown + [e], c.rereads)
  {
  }

  /** The page between the two connections. */
  function CutOnce(): Page {
    Page(At(1, 1), {(1, 0), (1, 1)}, [LongerLog()[0]], 0)
  }

  lemma FirstConnectionTaken()
    ensures var first := Sent(LongerLog()[..1], 100, 1, DEVICE_VIEWER, 0);
            |first| == 2 && HandleAll(Page(NoId, {}, [], 0), first) == CutOnce()
  {
    hide Sent, Frames, HandleAll, LongerLog, ResyncOwed, Owed, Handled, Numbered;
    LongerLogHas();
    var log, start := LongerLog(), Page(NoId, {}, [], 0);
    LongerLogSent(start, 0, 0, 1);
    FrameAt(log[0..1]);
    assert Sent(log[..1], 100, 1, DEVICE_VIEWER, 0) == [Hello(1, 0), Live(log[0])];
    HandledTwo(start, Hello(1, 0), Live(log[0]));
    GreetingThenEvent(start, 0, log[0]);
    assert start.seen + {(1, 0)} + {(1, 1)} == CutOnce().seen;
  }

  lemma SecondConnectionTaken()
    ensures var second := Sent(LongerLog()[..3], 100, 1, DEVICE_VIEWER.(lastEventId := At(1, 1)), 3);
            |second| == 3 && HandleAll(CutOnce(), second[..2]) == CutTwice()
  {
    hide Sent, Frames, HandleAll, LongerLog, ResyncOwed, Owed, Handled, Numbered;
    LongerLogHas();
    var log, mid := LongerLog(), CutOnce();
    LongerLogSent(mid, 1, 3, 3);
    FrameAt(log[1..3]);
    var second := Sent(log[..3], 100, 1, DEVICE_VIEWER.(lastEventId := At(1, 1)), 3);
    assert second[..2] == [Hello(1, 3), Live(log[1])];
    HandledTwo(mid, Hello(1, 3), Live(log[1]));
    FewIds();
    GreetingThenEvent(mid, 3, log[1]);
    assert mid.seen + {(1, 3)} + {(1, 2)} == CutTwice().seen;
  }

  /** How a page comes to stand there: it takes two frames of each connection, the second opened after event 3. */
  lemma CutTwiceHappens()
    ensures var first := Sent(LongerLog()[..1], 100, 1, DEVICE_VIEWER, 0);
            var second := Sent(LongerLog()[..3], 100, 1, DEVICE_VIEWER.(lastEventId := At(1, 1)), 3);
            && |first| == 2 && |second| == 3
            && HandleAll(HandleAll(Page(NoId, {}, [], 0), first), second[..2]) == CutTwice()
  {
    hide Sent, HandleAll, LongerLog;
    FirstConnectionTaken();
    SecondConnectionTaken();
  }

  lemma FewIds()
    ensures |{(1, 0), (1, 1), (1, 3), (1, 2)}| == 4 && |{(1, 0), (1, 1), (1, 3)}| == 3 && |{(1, 0), (1, 1)}| == 2
    ensures |{(1, 0)}| == 1 && |{(1, 0), (1, 1), (1, 3), (1, 2), (1, 4)}| == 5
  {
  }

  /**
   The id of an earlier greeting: the page asks again for event 3, which is owed and sent, and drops it, though the
   end of this backfill is none it may see. From then on its last id is that of event 4, so event 3 is never owed
   again.
   */
  lemma EarlierGreetingHidesAnEvent()
    ensures var c, log := CutTwice(), LongerLog();
            var after := Connected(c, log, 100, 1, DEVICE_VIEWER, 4);
            && !ResyncOwed(c, log, 100, 1, 4) && !TailRepeatsGreeting(c, log, 1, DEVICE_VIEWER, 4)
            && Owed(c, log, DEVICE_VIEWER, 4) == [log[2]] && after.shown == c.shown && after.last == At(1, 4)
  {
    hide Sent, Frames, HandleAll, LongerLog, ResyncOwed, Owed;
    var c, log := CutTwice(), LongerLog();
    LongerLogHas();
    LongerLogSent(c, 2, 4, 4);
    assert log[..4] == log && log[2..3] == [log[2]];
    FrameAt([log[2]]);
    assert Frames([log[2]]) == [Live(log[2])];
    FewIds();
    assert Sent(log, 100, 1, DEVICE_VIEWER.(lastEventId := c.last), 4) == [Hello(1, 4), Live(log[2])];
    HandledTwo(c, Hello(1, 4), Live(log[2]));
  }
}
