/** The bounded ring of live events, kept beside the unbounded log it stands for. */
module LiveRing {
  import opened Wrappers
  import opened Sequences
  import opened Arithmetic

  datatype Kind = Reading | DeviceState | Alarm | Ping

  /** `epoch` and `seq` make up the id `epoch:num`. */
  datatype Event = Event(epoch: int, num: int, kind: Kind, keys: seq<string>, data: string)

  /** The Last-Event-ID a client comes back with: none, one that does not parse, or a pair. */
  datatype LastId = NoId | Garbled | At(epoch: int, num: int)

  datatype Reason = UnknownEpoch | TooOld

  datatype Backfill = Backfill(events: seq<Event>, resync: bool, reason: Option<Reason>)

  /** The log of one epoch: every event ever appended, numbered from 1. */
  ghost predicate Numbered(log: seq<Event>, epoch: int) {
    forall i :: 0 <= i < |log| ==> log[i].epoch == epoch && log[i].num == i + 1
  }

  /** The last min(capacity, length) events. */
  function Last(log: seq<Event>, capacity: nat): seq<Event> {
    log[|log| - Min(capacity, |log|)..]
  }

  function After(n: int): Event -> bool {
    (e: Event) => e.num > n
  }

  function Since(log: seq<Event>, capacity: nat, epoch: int, last: LastId): Backfill {
    match last
    case NoId => Backfill([], false, None)
    case Garbled => Backfill([], true, Some(UnknownEpoch))
    case At(e, n) =>
      if e != epoch || n > |log| then Backfill([], true, Some(UnknownEpoch))
      else
        var buffer := Last(log, capacity);
        var oldest := if buffer == [] then |log| else buffer[0].num;
        if n + 1 < oldest then Backfill([], true, Some(TooOld)) else Backfill(Filter(buffer, After(n)), false, None)
  }

  lemma {:induction false} FilterOfNumbered(log: seq<Event>, epoch: int, from: nat, n: int)
    requires Numbered(log, epoch) && from <= |log|
    ensures Filter(log[from..], After(n)) == log[(if n <= from then from else if n >= |log| then |log| else n)..]
    decreases |log|
  {
    hide Filter;
    NoneAfter(n);
    if from < |log| {
      var m := |log| - 1;
      var front := log[..m];
      FilterOfNumbered(front, epoch, from, n);
      assert log[from..] == front[from..] + [log[m]];
      FilterAppend(front[from..], [log[m]], After(n));
      OneAfter(log[m], n);
      if n <= from {
        assert front[from..] + [log[m]] == log[from..];
      } else if n <= m {
        assert front[n..] + [log[m]] == log[n..];
      } else {
        assert front[m..] == [] && log[|log|..] == [];
      }
    } else {
      assert log[from..] == [];
    }
  }

  lemma NoneAfter(n: int)
    ensures Filter([], After(n)) == []
  {
  }

  lemma OneAfter(e: Event, n: int)
    ensures Filter([e], After(n)) == if e.num > n then [e] else []
  {
  }

  /**
   Nothing in between: with room for at least one event, `Since` returns exactly the events after n, or demands
   a resync, and does the latter exactly when n is foreign, from the future, or followed by an evicted event.
   */
  lemma SinceIsExactOrResync(log: seq<Event>, capacity: nat, epoch: int, last: LastId)
    requires Numbered(log, epoch) && capacity >= 1
    ensures var answer := Since(log, capacity, epoch, last);
            match last
            case NoId => answer == Backfill([], false, None)
            case Garbled => answer.resync
            case At(e, n) =>
              && (n >= 0 ==> (answer.resync <==> e != epoch || n > |log| || n + capacity < |log|))
              && (n < 0 ==> answer.resync || log == [])
              && (!answer.resync ==> answer.events == if n >= 0 then log[n..] else log)
  {
    hide Numbered, Filter;
    var from := |log| - Min(capacity, |log|);
    NumberAt(log, epoch, from);
    assert log[0..] == log;
    if last.At? {
      FilterOfNumbered(log, epoch, from, last.num);
      if log != [] {
        assert Last(log, capacity)[0] == log[from];
      }
    }
  }

  lemma NumberAt(log: seq<Event>, epoch: int, i: nat)
    requires Numbered(log, epoch)
    ensures i < |log| ==> log[i].num == i + 1 && log[i].epoch == epoch
  {
  }

  /** Without room for an event the last one is lost in silence: this is why the capacity starts at 1. */
  lemma NoRoomLosesTheLast(log: seq<Event>, epoch: int)
    requires Numbered(log, epoch) && log != []
    ensures Since(log, 0, epoch, At(epoch, |log| - 1)) == Backfill([], false, None)
  {
  }

  class Ring {
    const capacity: nat
    const epoch: int
    var seqNo: nat
    var buffer: seq<Event>
    /** Every event appended so far. */
    ghost var log: seq<Event>

    ghost predicate Valid()
      reads this
    {
      Numbered(log, epoch) && seqNo == |log| && buffer == Last(log, capacity)
    }

    constructor (capacity: nat, epoch: int)
      ensures Valid() && log == [] && this.capacity == capacity && this.epoch == epoch
    {
      this.capacity := capacity;
      this.epoch := epoch;
      seqNo := 0;
      buffer := [];
      log := [];
    }

    method CurrentId() returns (id: LastId)
      requires Valid()
      ensures id == At(epoch, |log|)
    {
      id := At(epoch, seqNo);
    }

    method Size() returns (n: nat)
      requires Valid()
      ensures n == Min(capacity, |log|)
    {
      n := |buffer|;
    }

    method Append(kind: Kind, keys: seq<string>, data: string) returns (event: Event)
      requires Valid()
      modifies this
      ensures Valid()
      ensures event == Event(epoch, |old(log)| + 1, kind, keys, data)
      ensures log == old(log) + [event]
    {
      seqNo := seqNo + 1;
      event := Event(epoch, seqNo, kind, keys, data);
      buffer := buffer + [event];
      log := log + [event];
      if |buffer| > capacity {
        buffer := buffer[1..];
      }
    }

    method SinceId(last: LastId) returns (answer: Backfill)
      requires Valid()
      ensures answer == Since(log, capacity, epoch, last)
    {
      match last
      case NoId => return Backfill([], false, None);
      case Garbled => return Backfill([], true, Some(UnknownEpoch));
      case At(e, n) =>
        if e != epoch {
          return Backfill([], true, Some(UnknownEpoch));
        }
        if n > seqNo {
          return Backfill([], true, Some(UnknownEpoch));
        }
        var oldestSeq := if buffer == [] then seqNo else buffer[0].num;
        if n + 1 < oldestSeq {
          return Backfill([], true, Some(TooOld));
        }
        return Backfill(Filter(buffer, After(n)), false, None);
    }
  }
}
