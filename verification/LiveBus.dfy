/** The live bus: one ring, any number of open streams, each allowed to see its share of the events. */
module LiveBus {
  import opened Wrappers
  import opened Sequences
  import opened LiveRing

  datatype Module = Devices | Alarms | OtherModule

  datatype Options = Options(lastEventId: LastId, permissions: set<Module>, keys: Option<set<string>>)

  datatype Message =
    | Hello(epoch: int, num: int)
    | Resync(epoch: int, num: int, reason: Option<Reason>)
    | Live(event: Event)

  function Required(kind: Kind): Option<Module> {
    match kind
    case Reading => Some(Devices)
    case DeviceState => Some(Devices)
    case Alarm => Some(Alarms)
    case Ping => None
  }

  predicate Permits(options: Options, e: Event) {
    && (Required(e.kind).Some? ==> Required(e.kind).value in options.permissions)
    && (options.keys.Some? && e.keys != [] ==> exists k :: k in e.keys && k in options.keys.value)
  }

  function Allowed(options: Options): Event -> bool {
    (e: Event) => Permits(options, e)
  }

  function Frames(events: seq<Event>): seq<Message> {
    if events == [] then [] else Frames(events[..|events| - 1]) + [Live(events[|events| - 1])]
  }

  lemma {:induction false} FramesAppend(a: seq<Event>, b: seq<Event>)
    ensures Frames(a + b) == Frames(a) + Frames(b)
  {
    if b == [] {
      assert a + b == a;
    } else {
      assert (a + b)[..|a + b| - 1] == a + b[..|b| - 1];
      FramesAppend(a, b[..|b| - 1]);
    }
  }

  lemma {:induction false} FrameAt(events: seq<Event>)
    ensures |Frames(events)| == |events| && forall i :: 0 <= i < |events| ==> Frames(events)[i] == Live(events[i])
  {
    if events != [] {
      FrameAt(events[..|events| - 1]);
    }
  }

  lemma FramesOfOneMore(events: seq<Event>, i: nat, options: Options)
    requires i < |events|
    ensures Frames(Filter(events[..i + 1], Allowed(options))) ==
            Frames(Filter(events[..i], Allowed(options)))
            + if Permits(options, events[i]) then [Live(events[i])] else []
  {
    assert events[..i + 1] == events[..i] + [events[i]];
    FilterAppend(events[..i], [events[i]], Allowed(options));
    assert Filter([events[i]], Allowed(options)) == if Permits(options, events[i]) then [events[i]] else [];
    FramesAppend(Filter(events[..i], Allowed(options)), Filter([events[i]], Allowed(options)));
    assert Frames([events[i]]) == [Live(events[i])];
  }

  lemma NothingFramed(options: Options)
    ensures Frames(Filter([], Allowed(options))) == []
  {
  }

  /** What a stream sends when it opens: the greeting, then the backfill or the demand to read everything again. */
  function Burst(log: seq<Event>, capacity: nat, epoch: int, options: Options): seq<Message> {
    var backfill := Since(log, capacity, epoch, options.lastEventId);
    [Hello(epoch, |log|)]
    + if backfill.resync then [Resync(epoch, |log|, backfill.reason)]
      else Frames(Filter(backfill.events, Allowed(options)))
  }

  /** All that a stream opened after `openAt` events sends while the log grows to `log`. */
  function Sent(log: seq<Event>, capacity: nat, epoch: int, options: Options, openAt: nat): seq<Message>
    requires openAt <= |log|
  {
    Burst(log[..openAt], capacity, epoch, options) + Frames(Filter(log[openAt..], Allowed(options)))
  }

  /** One connection: its options and everything sent down it so far. */
  class Subscriber {
    const options: Options
    var sent: seq<Message>

    constructor (options: Options)
      ensures this.options == options && sent == []
    {
      this.options := options;
      sent := [];
    }

    method Next(message: Message)
      modifies this
      ensures sent == old(sent) + [message]
    {
      sent := sent + [message];
    }
  }

  class Bus {
    const ring: Ring
    var streams: seq<Subscriber>
    var published: nat
    /** Length of the log when each stream was opened. */
    ghost var openedAt: seq<nat>

    ghost predicate Shape()
      reads this, ring, streams
    {
      && ring.Valid() && Distinct(streams) && |openedAt| == |streams|
      && (forall i :: 0 <= i < |openedAt| ==> openedAt[i] <= |ring.log|)
    }

    ghost predicate UpToDate(i: nat)
      requires i < |streams| && i < |openedAt| && openedAt[i] <= |ring.log|
      reads this, ring, streams
    {
      streams[i].sent == Sent(ring.log, ring.capacity, ring.epoch, streams[i].options, openedAt[i])
    }

    /** Every open stream has been sent exactly its burst and its share of everything published since. */
    ghost predicate Valid()
      reads this, ring, streams
    {
      && Shape()
      && published == |ring.log|
      && forall i :: 0 <= i < |streams| ==> UpToDate(i)
    }

    constructor (capacity: nat, epoch: int)
      ensures Valid() && fresh(ring) && ring.log == [] && streams == []
      ensures ring.capacity == capacity && ring.epoch == epoch
    {
      ring := new Ring(capacity, epoch);
      streams := [];
      published := 0;
      openedAt := [];
    }

    method Publish(kind: Kind, keys: seq<string>, data: string)
      requires Valid()
      modifies this, ring, streams
      ensures Valid() && streams == old(streams) && openedAt == old(openedAt)
      ensures ring.log == old(ring.log) + [Event(ring.epoch, |old(ring.log)| + 1, kind, keys, data)]
    {
      hide Sent;
      ghost var before := ring.log;
      forall k | 0 <= k < |streams|
        ensures streams[k].sent == Sent(before, ring.capacity, ring.epoch, streams[k].options, openedAt[k])
      {
        assert UpToDate(k);
      }
      var event := ring.Append(kind, keys, data);
      published := published + 1;
      for i := 0 to |streams|
        invariant Shape() && streams == old(streams) && openedAt == old(openedAt) && published == |ring.log|
        invariant ring.log == before + [event]
        invariant forall k :: 0 <= k < |openedAt| ==> openedAt[k] <= |before|
        invariant forall k :: 0 <= k < i ==>
                    streams[k].sent == Sent(ring.log, ring.capacity, ring.epoch, streams[k].options, openedAt[k])
        invariant forall k :: i <= k < |streams| ==>
                    streams[k].sent == Sent(before, ring.capacity, ring.epoch, streams[k].options, openedAt[k])
      {
        SentGrows(before, event, ring.capacity, ring.epoch, streams[i].options, openedAt[i]);
        if Permits(streams[i].options, event) {
          streams[i].Next(Live(event));
        }
      }
    }

    method Stream(options: Options) returns (subscriber: Subscriber)
      requires Valid()
      modifies this
      ensures Valid() && fresh(subscriber) && ring.log == old(ring.log)
      ensures streams == old(streams) + [subscriber] && openedAt == old(openedAt) + [|ring.log|]
      ensures subscriber.options == options && subscriber.sent == Burst(ring.log, ring.capacity, ring.epoch, options)
    {
      hide Sent, Burst;
      subscriber := new Subscriber(options);
      SendBurst(subscriber);
      SentAtOpening(ring.log, ring.capacity, ring.epoch, options);
      ghost var was := streams;
      forall k | 0 <= k < |streams|
        ensures streams[k].sent == Sent(ring.log, ring.capacity, ring.epoch, streams[k].options, openedAt[k])
      {
        assert old(UpToDate(k));
      }
      streams := streams + [subscriber];
      openedAt := openedAt + [|ring.log|];
      forall k | 0 <= k < |streams| ensures UpToDate(k) {
        assert k < |was| ==> streams[k] == was[k];
      }
    }

    method SendBurst(subscriber: Subscriber)
      requires ring.Valid() && subscriber.sent == []
      modifies subscriber
      ensures subscriber.sent == Burst(ring.log, ring.capacity, ring.epoch, subscriber.options)
    {
      hide Since, Filter, Frames;
      var options := subscriber.options;
      NothingFramed(options);
      subscriber.Next(Hello(ring.epoch, ring.seqNo));
      var backfill := ring.SinceId(options.lastEventId);
      if backfill.resync {
        subscriber.Next(Resync(ring.epoch, ring.seqNo, backfill.reason));
      } else {
        for i := 0 to |backfill.events|
          invariant subscriber.sent ==
                    [Hello(ring.epoch, ring.seqNo)] + Frames(Filter(backfill.events[..i], Allowed(options)))
        {
          FramesOfOneMore(backfill.events, i, options);
          if Permits(options, backfill.events[i]) {
            subscriber.Next(Live(backfill.events[i]));
          }
        }
        assert backfill.events[..|backfill.events|] == backfill.events;
      }
    }

    /** Cutting a connection: the stream gets nothing more. */
    method Close(i: nat)
      requires Valid() && i < |streams|
      modifies this
      ensures Valid() && ring.log == old(ring.log)
      ensures streams == old(streams)[..i] + old(streams)[i + 1..]
      ensures openedAt == old(openedAt)[..i] + old(openedAt)[i + 1..]
    {
      hide Sent;
      ghost var was := streams;
      ghost var wasAt := openedAt;
      streams := streams[..i] + streams[i + 1..];
      openedAt := openedAt[..i] + openedAt[i + 1..];
      forall k | 0 <= k < |streams| ensures UpToDate(k) {
        assert old(UpToDate(if k < i then k else k + 1));
        assert streams[k] == was[if k < i then k else k + 1] && openedAt[k] == wasAt[if k < i then k else k + 1];
      }
    }
  }

  lemma OneFrame(options: Options, e: Event)
    ensures Frames(Filter([e], Allowed(options))) == if Permits(options, e) then [Live(e)] else []
  {
  }

  lemma SentGrows(before: seq<Event>, event: Event, capacity: nat, epoch: int, options: Options, openAt: nat)
    requires openAt <= |before|
    ensures Sent(before + [event], capacity, epoch, options, openAt) ==
            Sent(before, capacity, epoch, options, openAt) + if Permits(options, event) then [Live(event)] else []
  {
    hide Burst, Filter, Frames;
    OneFrame(options, event);
    var log := before + [event];
    assert log[..openAt] == before[..openAt];
    assert log[openAt..] == before[openAt..] + [event];
    FilterAppend(before[openAt..], [event], Allowed(options));
    FramesAppend(Filter(before[openAt..], Allowed(options)), Filter([event], Allowed(options)));
  }

  lemma SentAtOpening(log: seq<Event>, capacity: nat, epoch: int, options: Options)
    ensures Sent(log, capacity, epoch, options, |log|) == Burst(log, capacity, epoch, options)
  {
    assert log[..|log|] == log && log[|log|..] == [];
  }

  /** Rights and subscription, said without the table of rights. */
  ghost predicate MaySee(options: Options, e: Event) {
    && (e.kind == Reading || e.kind == DeviceState ==> Devices in options.permissions)
    && (e.kind == Alarm ==> Alarms in options.permissions)
    && (options.keys == None || e.keys == [] || exists k :: k in e.keys && k in options.keys.value)
  }

  /** A stream carries no event its options do not allow, and every allowed event published while it is open. */
  lemma StreamCarriesTheAllowed(log: seq<Event>, capacity: nat, epoch: int, options: Options, openAt: nat, e: Event)
    requires openAt <= |log|
    ensures Live(e) in Sent(log, capacity, epoch, options, openAt) ==> e in log && MaySee(options, e)
    ensures e in log[openAt..] && MaySee(options, e) ==> Live(e) in Sent(log, capacity, epoch, options, openAt)
  {
    hide Since, Filter, Frames, Permits;
    MaySeeIsPermits(options, e);
    var backfill := Since(log[..openAt], capacity, epoch, options.lastEventId);
    BackfillIsFromLog(log[..openAt], capacity, epoch, options.lastEventId);
    FilterMembers(backfill.events, Allowed(options));
    FilterMembers(log[openAt..], Allowed(options));
    FramesAre(Filter(backfill.events, Allowed(options)), e);
    FramesAre(Filter(log[openAt..], Allowed(options)), e);
    assert log == log[..openAt] + log[openAt..];
  }

  lemma MaySeeIsPermits(options: Options, e: Event)
    ensures MaySee(options, e) <==> Permits(options, e)
  {
  }

  lemma FramesAre(events: seq<Event>, e: Event)
    ensures Live(e) in Frames(events) <==> e in events
  {
    FrameAt(events);
  }

  lemma BackfillIsFromLog(log: seq<Event>, capacity: nat, epoch: int, last: LastId)
    ensures forall e :: e in Since(log, capacity, epoch, last).events ==> e in log
  {
    if last.At? {
      FilterMembers(Last(log, capacity), After(last.num));
    }
  }
}
