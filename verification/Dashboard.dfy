/** The dashboard broadcast, backend/app/dashboard/service.py: one collector under a lock, and for
    every subscriber a queue of one slot whose unread snapshot is replaced. */
module Dashboard {
  import opened Common

  /** A collected snapshot; number is its place in the order of completed collections. */
  datatype Snapshot<D> = Snapshot(number: nat, data: D)

  /** None in a queue tells its subscriber to end. */
  type Message<D> = Option<Snapshot<D>>

  /** asyncio.Queue(maxsize=1) of one subscriber, with the numbers of the snapshots it has received. */
  class Slot<D> {
    var items: seq<Message<D>>
    ghost var received: seq<nat>

    constructor ()
      ensures items == [] && received == []
    {
      items, received := [], [];
    }

    /** put_nowait, which raises QueueFull on a full queue. */
    method Put(message: Message<D>)
      requires |items| < 1
      modifies this`items
      ensures items == [message]
    {
      items := items + [message];
    }

    /** Give up what was not read, then put. */
    method Replace(message: Message<D>)
      requires |items| <= 1
      modifies this`items
      ensures items == [message]
    {
      if |items| == 1 {
        items := items[1..];
      }
      Put(message);
    }

    /** At most one message is waiting; a waiting snapshot is the newest one; what was received came
        in collection order and before what is waiting. */
    ghost predicate Fresh(newest: Option<Snapshot<D>>, collected: nat)
      reads this
    {
      && |items| <= 1
      && Increasing(received)
      && (forall i :: 0 <= i < |received| ==> received[i] < collected)
      && (items != [] && items[0].Some? ==>
            newest == items[0] && forall i :: 0 <= i < |received| ==> received[i] < items[0].value.number)
    }
  }

  /** One atomic step of the service's tasks; subscribers are named by the order in which they came. */
  datatype Step<D> = Begins | Completes(data: D) | Fails | Subscribes | Receives(subscriber: nat) | Leaves(subscriber: nat) | Halts

  /** The data of the collections that complete in a schedule. */
  function Collections<D>(schedule: seq<Step<D>>, collecting: bool): seq<D> {
    if schedule == [] then []
    else
      match schedule[0]
      case Begins => Collections(schedule[1..], true)
      case Fails => Collections(schedule[1..], false)
      case Completes(data) => (if collecting then [data] else []) + Collections(schedule[1..], false)
      case _ => Collections(schedule[1..], collecting)
  }

  class MetricsService<D> {
    var snapshot: Option<Snapshot<D>>
    var collecting: bool
    var subscribers: set<Slot<D>>
    var collected: nat

    ghost predicate Valid()
      reads this, subscribers
    {
      && (snapshot.Some? <==> collected > 0)
      && (snapshot.Some? ==> snapshot.value.number == collected - 1)
      && forall q :: q in subscribers ==> q.Fresh(snapshot, collected)
    }

    constructor ()
      ensures Valid() && fresh(this) && subscribers == {} && snapshot == None && !collecting && collected == 0
    {
      snapshot, collecting, subscribers, collected := None, false, {}, 0;
    }

    /** The lock is taken; the collector runs. */
    method Begin()
      requires Valid() && !collecting
      modifies this`collecting
      ensures Valid() && collecting
    {
      collecting := true;
    }

    /** The collection fails or is cancelled: the last snapshot stays. */
    method Fail()
      requires Valid() && collecting
      modifies this`collecting
      ensures Valid() && !collecting
    {
      collecting := false;
    }

    /** The collection completes: every subscriber's unread message is replaced by the new snapshot. */
    method Complete(data: D)
      requires Valid() && collecting
      modifies this`collecting, this`snapshot, this`collected, subscribers
      ensures Valid() && !collecting && collected == old(collected) + 1
      ensures snapshot == Some(Snapshot(old(collected), data))
      ensures forall q :: q in subscribers ==> q.items == [snapshot] && q.received == old(q.received)
    {
      snapshot := Some(Snapshot(collected, data));
      collected := collected + 1;
      Broadcast(snapshot);
      collecting := false;
    }

    method Broadcast(message: Message<D>)
      requires forall q :: q in subscribers ==> |q.items| <= 1
      modifies subscribers`items
      ensures forall q :: q in subscribers ==> q.items == [message]
    {
      var remaining := subscribers;
      while remaining != {}
        invariant remaining <= subscribers
        invariant forall q :: q in remaining ==> |q.items| <= 1
        invariant forall q :: q in subscribers - remaining ==> q.items == [message]
        decreases |remaining|
      {
        var q :| q in remaining;
        q.Replace(message);
        remaining := remaining - {q};
      }
    }

    /** subscribe, once there is a snapshot: the new queue starts with the latest. */
    method Subscribe() returns (q: Slot<D>)
      requires Valid() && snapshot.Some?
      modifies this`subscribers
      ensures Valid() && fresh(q) && subscribers == old(subscribers) + {q}
      ensures q.items == [snapshot] && q.received == []
    {
      q := new Slot();
      q.Put(snapshot);
      subscribers := subscribers + {q};
    }

    /** A subscriber gets what waits for it; on None it ends. */
    method Receive(q: Slot<D>) returns (message: Message<D>)
      requires Valid() && q in subscribers && q.items != []
      modifies this`subscribers, q
      ensures Valid() && message == old(q.items[0]) && q.items == []
      ensures message.Some? ==>
        message == snapshot && q.received == old(q.received) + [message.value.number] && subscribers == old(subscribers)
      ensures message.None? ==> q.received == old(q.received) && subscribers == old(subscribers) - {q}
    {
      message := q.items[0];
      q.items := q.items[1..];
      if message.Some? {
        q.received := q.received + [message.value.number];
      } else {
        subscribers := subscribers - {q};
      }
    }

    /** A subscriber goes away. */
    method Leave(q: Slot<D>)
      requires Valid() && q in subscribers
      modifies this`subscribers
      ensures Valid() && subscribers == old(subscribers) - {q}
    {
      subscribers := subscribers - {q};
    }

    /** stop: every subscriber's unread message is replaced by None. */
    method Stop()
      requires Valid()
      modifies subscribers`items
      ensures Valid()
      ensures forall q :: q in subscribers ==> q.items == [None] && q.received == old(q.received)
    {
      Broadcast(None);
    }
  }

  /** Whether a collection runs after a step. */
  predicate StillCollecting<D>(step: Step<D>, collecting: bool) {
    step.Begins? || (collecting && !step.Completes? && !step.Fails?)
  }

  lemma CollectionsNext<D>(schedule: seq<Step<D>>, collecting: bool)
    requires schedule != []
    ensures Collections(schedule, collecting)
            == Collections([schedule[0]], collecting) + Collections(schedule[1..], StillCollecting(schedule[0], collecting))
  {
    assert [schedule[0]][1..] == [];
  }

  /** The tasks of one service and its subscribers, in the order in which they came. */
  ghost predicate Consistent<D>(service: MetricsService<D>, slots: seq<Slot<D>>)
    reads service, service.subscribers, slots
  {
    && service.Valid()
    && (forall q :: q in service.subscribers ==> q in slots)
    && forall k :: 0 <= k < |slots| ==> Increasing(slots[k].received)
  }

  /** A step of the collector; one that is not possible is passed over. */
  method PerformCollector<D>(service: MetricsService<D>, slots: seq<Slot<D>>, step: Step<D>)
    requires Consistent(service, slots) && (step.Begins? || step.Completes? || step.Fails? || step.Halts?)
    modifies service, slots
    ensures Consistent(service, slots) && service.collecting == StillCollecting(step, old(service.collecting))
    ensures Collected(service, old(service.collected), old(service.snapshot), Collections([step], old(service.collecting)))
    // A completed collection and the stop reach every subscriber; nothing else reaches any.
    ensures service.subscribers == old(service.subscribers)
    ensures step.Completes? && old(service.collecting) ==> forall q :: q in service.subscribers ==> q.items == [service.snapshot]
    ensures step.Halts? ==> forall q :: q in service.subscribers ==> q.items == [None]
    ensures !step.Halts? && !(step.Completes? && old(service.collecting)) ==> forall q :: q in slots ==> q.items == old(q.items)
    ensures forall q :: q in slots ==> q.received == old(q.received)
  {
    assert [step][1..] == [];
    match step {
      case Begins =>
        if !service.collecting {
          service.Begin();
        }
      case Completes(data) =>
        if service.collecting {
          service.Complete(data);
        }
      case Fails =>
        if service.collecting {
          service.Fail();
        }
      case Halts =>
        service.Stop();
    }
  }

  /** A step of a subscriber; one that is not possible is passed over. */
  method PerformSubscriber<D>(service: MetricsService<D>, slots: seq<Slot<D>>, step: Step<D>) returns (next: seq<Slot<D>>)
    requires Consistent(service, slots) && (step.Subscribes? || step.Receives? || step.Leaves?)
    modifies service`subscribers, slots
    ensures Consistent(service, next) && slots <= next && forall k :: |slots| <= k < |next| ==> fresh(next[k])
    ensures step.Subscribes? && service.snapshot.Some? ==>
      && |next| == |slots| + 1 && service.subscribers == old(service.subscribers) + {next[|slots|]}
      && next[|slots|].items == [service.snapshot]
    ensures !(step.Subscribes? && service.snapshot.Some?) ==> next == slots
    // The subscriber named in the step gets what waits for it, and ends with None or by leaving.
    ensures forall k :: 0 <= k < |slots| ==>
      var q, waiting := slots[k], old(slots[k].items);
      var receives := step.Receives? && step.subscriber < |slots| && slots[step.subscriber] == q
                      && q in old(service.subscribers) && waiting != [];
      && q.items == (if receives then [] else waiting)
      && q.received == (if receives && waiting[0].Some? then old(q.received) + [waiting[0].value.number] else old(q.received))
      && (step == Receives(k) ==>
            service.subscribers == if receives && waiting[0].None? then old(service.subscribers) - {q} else old(service.subscribers))
      && (step == Leaves(k) ==> service.subscribers == old(service.subscribers) - {q})
  {
    next := slots;
    match step {
      case Subscribes =>
        if service.snapshot.Some? {
          var q := service.Subscribe();
          next := slots + [q];
        }
      case Receives(k) =>
        if k < |slots| && slots[k] in service.subscribers && slots[k].items != [] {
          var message := service.Receive(slots[k]);
        }
      case Leaves(k) =>
        if k < |slots| && slots[k] in service.subscribers {
          service.Leave(slots[k]);
        }
    }
  }

  method Perform<D>(service: MetricsService<D>, slots: seq<Slot<D>>, step: Step<D>) returns (next: seq<Slot<D>>)
    requires Consistent(service, slots)
    modifies service, slots
    ensures Consistent(service, next) && slots <= next && forall k :: |slots| <= k < |next| ==> fresh(next[k])
    ensures service.collecting == StillCollecting(step, old(service.collecting))
    ensures Collected(service, old(service.collected), old(service.snapshot), Collections([step], old(service.collecting)))
  {
    if step.Subscribes? || step.Receives? || step.Leaves? {
      assert [step][1..] == [];
      next := PerformSubscriber(service, slots, step);
    } else {
      next := slots;
      PerformCollector(service, slots, step);
    }
  }

  /** The service after these collections completed. */
  ghost predicate Collected<D>(service: MetricsService<D>, before: nat, latest: Option<Snapshot<D>>, done: seq<D>)
    reads service
  {
    && service.collected == before + |done|
    && (if done == [] then service.snapshot == latest
        else service.snapshot.Some? && service.snapshot.value.data == done[|done| - 1])
  }

  method ServeFrom<D>(service: MetricsService<D>, slots: seq<Slot<D>>, schedule: seq<Step<D>>) returns (last: seq<Slot<D>>)
    requires Consistent(service, slots)
    modifies service, slots
    ensures Consistent(service, last) && slots <= last && forall k :: |slots| <= k < |last| ==> fresh(last[k])
    ensures Collected(service, old(service.collected), old(service.snapshot), Collections(schedule, old(service.collecting)))
    decreases |schedule|
  {
    if schedule == [] {
      return slots;
    }
    CollectionsNext(schedule, service.collecting);
    var next := Perform(service, slots, schedule[0]);
    last := ServeFrom(service, next, schedule[1..]);
  }

  /** Any interleaving of the tasks: what every subscriber ever received came strictly in collection
      order, and what waits unread for a subscriber is the newest snapshot or the end. */
  method Serve<D>(schedule: seq<Step<D>>) returns (service: MetricsService<D>, slots: seq<Slot<D>>)
    ensures service.Valid() && forall q :: q in service.subscribers ==> q in slots
    // The latest snapshot is the last collection that completed.
    ensures service.collected == |Collections(schedule, false)|
    ensures service.snapshot.Some? ==> service.snapshot.value.data == Collections(schedule, false)[service.collected - 1]
    ensures forall k :: 0 <= k < |slots| ==> Increasing(slots[k].received)
    ensures forall k :: 0 <= k < |slots| && slots[k] in service.subscribers ==>
      |slots[k].items| <= 1 && (slots[k].items != [] ==> slots[k].items[0].None? || slots[k].items[0] == service.snapshot)
  {
    service := new MetricsService();
    slots := ServeFrom(service, [], schedule);
  }
}
