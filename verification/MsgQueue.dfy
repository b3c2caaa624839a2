/**
 The bounded message queues between the services. `Put`, `Get` and `Purge` are
 the kernel's calls with K_NO_WAIT; `Publish` is the loop with which every
 service writes: put, and while that fails purge and put again.
 */
module MsgQueue {
  import opened Wrappers

  /** The content of a queue after an uncontended `Publish`. */
  function Published<T>(buf: seq<T>, capacity: nat, x: T): seq<T> {
    if |buf| < capacity then buf + [x] else [x]
  }

  /** What a `Get` returns, and what it leaves. */
  ghost function Head<T>(buf: seq<T>): Option<T> {
    if buf == [] then None else Some(buf[0])
  }

  ghost function Rest<T>(buf: seq<T>): seq<T> {
    if buf == [] then [] else buf[1..]
  }

  class Queue<T> {
    const capacity: nat
    var buf: seq<T>

    constructor (capacity: nat)
      requires capacity > 0
      ensures Valid() && buf == [] && this.capacity == capacity
    {
      this.capacity := capacity;
      buf := [];
    }

    ghost predicate Valid()
      reads this
    {
      0 < capacity && |buf| <= capacity
    }

    method Put(x: T) returns (ok: bool)
      requires Valid()
      modifies this
      ensures Valid()
      ensures ok == (|old(buf)| < capacity)
      ensures buf == if ok then old(buf) + [x] else old(buf)
    {
      ok := |buf| < capacity;
      if ok {
        buf := buf + [x];
      }
    }

    method Get() returns (x: Option<T>)
      requires Valid()
      modifies this
      ensures Valid()
      ensures x == Head(old(buf)) && buf == Rest(old(buf))
      ensures old(buf) == [] ==> x == None && buf == []
      ensures old(buf) != [] ==> x == Some(old(buf)[0]) && [old(buf)[0]] + buf == old(buf)
    {
      if buf == [] {
        return None;
      }
      x := Some(buf[0]);
      buf := buf[1..];
    }

    method Purge()
      requires Valid()
      modifies this
      ensures Valid() && buf == []
    {
      buf := [];
    }

    /** Without a competing producer the loop ends within two tries. */
    method Publish(x: T) returns (ghost tries: nat)
      requires Valid()
      modifies this
      ensures Valid() && buf == Published(old(buf), capacity, x)
      ensures buf == if |old(buf)| < capacity then old(buf) + [x] else [x]
      ensures tries <= 2
    {
      tries := 1;
      var ok := Put(x);
      while !ok
        invariant Valid() && tries <= 2
        invariant if ok then buf == Published(old(buf), capacity, x)
                  else tries == 1 && buf == old(buf) && |buf| == capacity
        decreases 2 - tries
      {
        Purge();
        ok := Put(x);
        tries := tries + 1;
      }
    }
  }
}

/**
 One queue shared by any number of producers and consumers, each call of the
 kernel being one atomic event.
 */
module QueueSharing {
  import opened MsgQueue

  /** Where a producer stands in the publish loop. */
  datatype Producer<T> = Idle | Trying(x: T) | Failed(x: T)

  datatype Event<T> = Begin(who: nat, x: T) | Put(who: nat) | Purge(who: nat) | Get

  /**
   `published` lists the successful puts of the whole run, `received` what
   consumers got, `consumed` the positions of those messages in `published`.
   */
  datatype System<T> = System(
    capacity: nat, buf: seq<T>, producers: seq<Producer<T>>, published: seq<T>, received: seq<T>,
    consumed: seq<nat>)
  {
    /** Nothing is queued and the newest publication was not consumed. */
    ghost predicate NewestLost() {
      published != [] && buf == [] && (consumed == [] || consumed[|consumed| - 1] != |published| - 1)
    }

    ghost predicate Busy() {
      exists p :: 0 <= p < |producers| && producers[p].Trying?
    }

    ghost predicate Inv() {
      && 0 < capacity && |buf| <= capacity && |buf| <= |published|
      && buf == published[|published| - |buf|..]
      && |received| == |consumed|
      && (forall i :: 0 <= i < |consumed| ==> consumed[i] < |published| - |buf|)
      && (forall i :: 0 <= i < |consumed| ==> received[i] == published[consumed[i]])
      && (forall i, j :: 0 <= i < j < |consumed| ==> consumed[i] < consumed[j])
      && (NewestLost() ==> Busy())
    }

    ghost predicate Enabled(e: Event<T>) {
      match e
      case Begin(who, _) => who < |producers| && producers[who].Idle?
      case Put(who) => who < |producers| && producers[who].Trying?
      case Purge(who) => who < |producers| && producers[who].Failed?
      case Get => true
    }

    ghost function Next(e: Event<T>): System<T>
      requires Inv() && Enabled(e)
    {
      match e
      case Begin(who, x) => this.(producers := producers[who := Trying(x)])
      case Put(who) =>
        var x := producers[who].x;
        if |buf| < capacity then
          this.(buf := buf + [x], published := published + [x], producers := producers[who := Idle])
        else this.(producers := producers[who := Failed(x)])
      case Purge(who) =>
        this.(buf := [], producers := producers[who := Trying(producers[who].x)])
      case Get =>
        if buf == [] then this
        else this.(buf := buf[1..], received := received + [buf[0]], consumed := consumed + [|published| - |buf|])
    }
  }

  ghost function Start<T>(capacity: nat, producers: nat): (s: System<T>)
    requires capacity > 0
    ensures s.Inv()
  {
    System(capacity, [], seq(producers, _ => Idle), [], [], [])
  }

  ghost predicate Run<T>(s: System<T>, events: seq<Event<T>>)
    requires s.Inv()
    decreases |events|
  {
    events == [] || (s.Enabled(events[0]) && (InvKept(s, events[0]); Run(s.Next(events[0]), events[1..])))
  }

  ghost function After<T>(s: System<T>, events: seq<Event<T>>): System<T>
    requires s.Inv() && Run(s, events)
    decreases |events|
  {
    if events == [] then s
    else
      InvKept(s, events[0]);
      After(s.Next(events[0]), events[1..])
  }

  /** Every event of every thread keeps the invariant. */
  lemma InvKept<T>(s: System<T>, e: Event<T>)
    requires s.Inv() && s.Enabled(e)
    ensures s.Next(e).Inv()
  {
    var n := s.Next(e);
    match e
    case Begin(who, x) =>
      assert n.producers[who].Trying?;
    case Put(who) =>
      if |s.buf| == s.capacity {
        assert n.buf != [];
      }
    case Purge(who) =>
      assert n.producers[who].Trying?;
    case Get =>
      if s.buf != [] {
        assert n.published == s.published && n.producers == s.producers;
        assert s.Busy() ==> n.Busy();
      }
  }

  /**
   Over every interleaving: the queue is the tail of the publication history,
   so with room for one message it holds at most the newest; consumers get
   publications in order and at most once; and once no producer is inside its
   loop, the newest publication is queued or has been consumed.
   */
  lemma SharedQueue<T>(capacity: nat, producers: nat, events: seq<Event<T>>)
    requires capacity > 0 && Run(Start(capacity, producers), events)
    ensures var s := After(Start(capacity, producers), events);
            && |s.buf| <= |s.published| && s.buf == s.published[|s.published| - |s.buf|..]
            && (capacity == 1 && s.buf != [] ==> s.buf == [s.published[|s.published| - 1]])
            && |s.received| == |s.consumed|
            && (forall i :: 0 <= i < |s.consumed| ==>
                 s.consumed[i] < |s.published| && s.received[i] == s.published[s.consumed[i]])
            && (forall i, j :: 0 <= i < j < |s.consumed| ==> s.consumed[i] < s.consumed[j])
            && (!s.Busy() && s.published != [] && s.buf == [] ==>
                 s.consumed != [] && s.consumed[|s.consumed| - 1] == |s.published| - 1)
  {
    AfterInv(Start<T>(capacity, producers), events);
  }

  lemma {:induction false} AfterInv<T>(s: System<T>, events: seq<Event<T>>)
    requires s.Inv() && Run(s, events)
    ensures After(s, events).Inv() && After(s, events).capacity == s.capacity
    decreases |events|
  {
    if events != [] {
      InvKept(s, events[0]);
      AfterInv(s.Next(events[0]), events[1..]);
    }
  }

  // ---------- how long a producer can loop ----------

  /** No producer but `who` puts or purges; consumers and the start of other loops are free. */
  ghost predicate Alone<T>(who: nat, events: seq<Event<T>>) {
    forall i :: 0 <= i < |events| && (events[i].Put? || events[i].Purge?) ==> events[i].who == who
  }

  /** How many puts and purges happen. */
  ghost function Calls<T>(events: seq<Event<T>>): nat
    decreases |events|
  {
    if events == [] then 0 else (if events[0].Put? || events[0].Purge? then 1 else 0) + Calls(events[1..])
  }

  /** The calls that a producer inside its loop needs at most: put, or put, purge, put. */
  ghost function CallsToPublish<T>(s: System<T>, who: nat): nat
    requires who < |s.producers| && !s.producers[who].Idle?
  {
    if s.producers[who].Failed? then 2 else if |s.buf| < s.capacity then 1 else 3
  }

  /** Publications are never taken back. */
  lemma {:induction false} HistoryGrows<T>(s: System<T>, events: seq<Event<T>>)
    requires s.Inv() && Run(s, events)
    ensures s.published <= After(s, events).published
    decreases |events|
  {
    hide System.Inv;
    if events != [] {
      InvKept(s, events[0]);
      HistoryGrows(s.Next(events[0]), events[1..]);
    }
  }

  /**
   The loop ends: for any capacity, and whatever consumers do between its
   calls, a producer without a competitor publishes its message next, after at
   most a put, a purge and a second put.
   */
  lemma {:induction false} LoopEnds<T>(s: System<T>, who: nat, events: seq<Event<T>>)
    requires s.Inv() && Run(s, events) && Alone(who, events)
    requires who < |s.producers| && !s.producers[who].Idle?
    requires Calls(events) >= CallsToPublish(s, who)
    ensures s.published + [s.producers[who].x] <= After(s, events).published
    decreases |events|
  {
    hide System.NewestLost, System.Busy;
    var e, rest := events[0], events[1..];
    InvKept(s, e);
    var n := s.Next(e);
    if e.Put? && |s.buf| < s.capacity {
      HistoryGrows(n, rest);
    } else {
      LoopEnds(n, who, rest);
    }
  }

  /**
   The loop of a producer that is alone, seen as calls of this shared queue:
   one put where there is room, else put, purge, put; it leaves what the
   uncontended `Publish` leaves.
   */
  lemma LoopAlone<T>(s: System<T>, who: nat)
    requires s.Inv() && who < |s.producers| && s.producers[who].Trying?
    ensures var calls: seq<Event<T>> := if |s.buf| < s.capacity then [Put(who)] else [Put(who), Purge(who), Put(who)];
            && Run(s, calls)
            && After(s, calls).buf == Published(s.buf, s.capacity, s.producers[who].x)
            && After(s, calls).published == s.published + [s.producers[who].x]
            && After(s, calls).received == s.received
  {
    hide System.NewestLost, System.Busy;
    InvKept(s, Put(who));
    var failed: System<T> := s.Next(Put(who));
    if |s.buf| < s.capacity {
      OneCall(s, Put(who));
    } else {
      InvKept(failed, Purge(who));
      var purged := failed.Next(Purge(who));
      InvKept(purged, Put(who));
      OneCall(purged, Put(who));
      var last: seq<Event<T>>, rest: seq<Event<T>> := [Put(who)], [Purge(who), Put(who)];
      assert rest[1..] == last && ([Put(who)] + rest)[1..] == rest;
      MoreCalls(failed, rest);
      MoreCalls(s, [Put(who)] + rest);
      assert [Put(who)] + rest == [Put(who), Purge(who), Put(who)];
    }
  }

  lemma OneCall<T>(s: System<T>, e: Event<T>)
    requires s.Inv() && s.Enabled(e)
    ensures Run(s, [e]) && After(s, [e]) == s.Next(e)
  {
    hide System.Inv;
    InvKept(s, e);
    assert [e][1..] == [];
    assert Run(s.Next(e), []) && After(s.Next(e), []) == s.Next(e);
  }

  lemma MoreCalls<T>(s: System<T>, events: seq<Event<T>>)
    requires s.Inv() && events != [] && s.Enabled(events[0]) && s.Next(events[0]).Inv()
    requires Run(s.Next(events[0]), events[1..])
    ensures Run(s, events) && After(s, events) == After(s.Next(events[0]), events[1..])
  {
    hide System.Inv;
  }
}
