/** The log WebSocket, backend/app/api/log_websocket.py: a history phase, then a producer and a
    consumer task joined by a bounded queue that drops its oldest entry when it is full. */
module LogRelay {
  import opened Common

  datatype Terminal = Eof | SourceError

  /** What the producer enqueues: log events, then one terminal envelope. */
  datatype Item<T> = Event(event: T) | End(terminal: Terminal)

  /** What is sent to the client. */
  datatype Envelope<T> = Connected | Log(number: nat, event: T) | Warning(count: nat) | Closing(terminal: Terminal)

  /** Where the consumer loop is: at the wait, resumed with an item, after its warning was sent, after
      the terminal envelope, ended by a disconnect or an expired session, or never started. */
  datatype Consumer = Waiting | Holding | Warned | Finished | Stopped | NotFollowing

  datatype Held<T> = Nothing | Holds(item: Item<T>)

  /** One atomic step, from one await to the next, of the producer, the consumer or the environment. */
  datatype Step<T> = Produces(event: T) | SourceEnds(terminal: Terminal) | Takes | Resumes | Delivers | Stops

  // ---------------------------------------------------------------- reading what was sent

  function Logs<T>(sent: seq<Envelope<T>>): seq<Envelope<T>> {
    if sent == [] then []
    else Logs(sent[..|sent| - 1]) + (if sent[|sent| - 1].Log? then [sent[|sent| - 1]] else [])
  }

  /** The sum of the warning counts. */
  function Reported<T>(sent: seq<Envelope<T>>): nat {
    if sent == [] then 0
    else Reported(sent[..|sent| - 1]) + (if sent[|sent| - 1].Warning? then sent[|sent| - 1].count else 0)
  }

  lemma Sent<T>(sent: seq<Envelope<T>>, envelope: Envelope<T>)
    ensures Logs(sent + [envelope]) == Logs(sent) + (if envelope.Log? then [envelope] else [])
    ensures Reported(sent + [envelope]) == Reported(sent) + (if envelope.Warning? then envelope.count else 0)
  {
    assert (sent + [envelope])[..|sent|] == sent;
  }

  /** The envelope of an item that is delivered when number logs have been sent. */
  function Outgoing<T>(item: Item<T>, number: nat): Envelope<T> {
    if item.Event? then Log(number + 1, item.event) else Closing(item.terminal)
  }

  /** A terminal envelope ends the loop. */
  function AfterDelivery<T>(item: Item<T>): Consumer {
    if item.Event? then Waiting else Finished
  }

  // ---------------------------------------------------------------- what holds at every step

  /** The queue is what has not left the stream; what has left was taken, in order, or dropped. */
  ghost predicate Conserved<T>(stream: seq<Item<T>>, start: nat, queue: seq<Item<T>>, capacity: nat, taken: seq<nat>, drops: nat) {
    && start <= |stream| && queue == stream[start..] && |queue| <= capacity
    && Increasing(taken) && (forall i :: 0 <= i < |taken| ==> taken[i] < start)
    && |taken| + drops == start
  }

  predicate Ended<T>(stream: seq<Item<T>>) {
    stream != [] && stream[|stream| - 1].End?
  }

  predicate Running(consumer: Consumer) {
    consumer.Waiting? || consumer.Holding? || consumer.Warned?
  }

  /** The terminal item is the last of the stream and leaves the queue only by being taken. */
  ghost predicate Terminated<T>(stream: seq<Item<T>>, start: nat, taken: seq<nat>, producing: bool, consumer: Consumer) {
    && (forall i :: 0 <= i < |stream| - 1 ==> stream[i].Event?)
    && (Ended(stream) ==> !producing)
    && (Ended(stream) && start == |stream| ==> taken != [] && taken[|taken| - 1] == |stream| - 1)
    && (!producing && Running(consumer) ==> Ended(stream))
    && (producing ==> Running(consumer))
  }

  /** What a schedule enqueues: the events up to the end of the source or the first stop. */
  function Enqueued<T>(schedule: seq<Step<T>>, producing: bool): seq<Item<T>> {
    if schedule == [] || !producing then []
    else
      match schedule[0]
      case Produces(event) => [Event(event)] + Enqueued(schedule[1..], true)
      case SourceEnds(terminal) => [End(terminal)]
      case Stops => []
      case _ => Enqueued(schedule[1..], true)
  }

  /** What was taken has been sent as a log, apart from the item the consumer still holds. */
  ghost predicate Handled<T>(stream: seq<Item<T>>, taken: seq<nat>, logged: seq<nat>, held: Held<T>, consumer: Consumer) {
    && (if held.Nothing? && !consumer.Finished? then taken == logged
        else
          && taken != [] && taken == logged + [taken[|taken| - 1]] && taken[|taken| - 1] < |stream|
          && (if held.Holds? then stream[taken[|taken| - 1]] == held.item else stream[taken[|taken| - 1]].End?))
    && (consumer.Holding? || consumer.Warned? ==> held.Holds?)
    && (consumer.Waiting? || consumer.NotFollowing? || consumer.Finished? ==> held.Nothing?)
  }

  /** The logs sent are the history and then the taken events, numbered from one without a gap. */
  ghost predicate Numbered<T>(history: seq<T>, stream: seq<Item<T>>, logged: seq<nat>, logs: seq<Envelope<T>>) {
    && |logs| == |history| + |logged|
    && (forall i :: 0 <= i < |history| ==> logs[i] == Log(i + 1, history[i]))
    && (forall i :: 0 <= i < |logged| ==>
          logged[i] < |stream| && stream[logged[i]].Event?
          && logs[|history| + i] == Log(|history| + i + 1, stream[logged[i]].event))
  }

  /** Every drop has been reported or is still in the counter. */
  ghost predicate Accounted<T>(reported: nat, dropped: nat, drops: nat, consumer: Consumer, held: Held<T>) {
    && reported + dropped == drops
    && (consumer.Warned? && held.Holds? && held.item.End? ==> dropped == 0)
    && (consumer.Finished? ==> dropped == 0)
  }

  ghost predicate NoneCloses<T>(sent: seq<Envelope<T>>) {
    forall i :: 0 <= i < |sent| ==> !sent[i].Closing?
  }

  /** A closing envelope is sent once, last. */
  ghost predicate Closed<T>(sent: seq<Envelope<T>>, stream: seq<Item<T>>, consumer: Consumer, producing: bool) {
    if consumer.Finished? then
      Ended(stream) && sent != [] && sent[|sent| - 1] == Closing(stream[|stream| - 1].terminal) && NoneCloses(sent[..|sent| - 1])
    else if consumer.NotFollowing? then
      stream == [] && !producing && sent != [] && sent[|sent| - 1] == Closing(Eof) && NoneCloses(sent[..|sent| - 1])
    else NoneCloses(sent)
  }

  lemma EnqueuedNext<T>(schedule: seq<Step<T>>, producing: bool)
    requires schedule != []
    ensures Enqueued(schedule, producing)
            == Enqueued([schedule[0]], producing)
               + Enqueued(schedule[1..], producing && !schedule[0].SourceEnds? && !schedule[0].Stops?)
  {
    assert [schedule[0]][1..] == [];
  }

  // ---------------------------------------------------------------- the steps keep it

  lemma EnqueueConserves<T>(stream: seq<Item<T>>, start: nat, queue: seq<Item<T>>, capacity: nat, taken: seq<nat>,
                            drops: nat, item: Item<T>)
    requires capacity >= 1 && Conserved(stream, start, queue, capacity, taken, drops)
    ensures var over := if |queue| >= capacity then 1 else 0;
            Conserved(stream + [item], start + over, queue[over..] + [item], capacity, taken, drops + over)
  {
    var over := if |queue| >= capacity then 1 else 0;
    assert queue[over..] + [item] == (stream + [item])[start + over..];
  }

  lemma TakeConserves<T>(stream: seq<Item<T>>, start: nat, queue: seq<Item<T>>, capacity: nat, taken: seq<nat>, drops: nat)
    requires queue != [] && Conserved(stream, start, queue, capacity, taken, drops)
    ensures Conserved(stream, start + 1, queue[1..], capacity, taken + [start], drops)
    ensures stream[start] == queue[0]
  {
    assert queue[1..] == stream[start + 1..];
  }

  lemma LogIsNumbered<T>(history: seq<T>, stream: seq<Item<T>>, logged: seq<nat>, logs: seq<Envelope<T>>, k: nat)
    requires Numbered(history, stream, logged, logs) && k < |stream| && stream[k].Event?
    ensures Numbered(history, stream, logged + [k], logs + [Log(|logs| + 1, stream[k].event)])
  {
  }

  lemma StreamGrows<T>(history: seq<T>, stream: seq<Item<T>>, taken: seq<nat>, logged: seq<nat>, logs: seq<Envelope<T>>,
                       held: Held<T>, consumer: Consumer, item: Item<T>)
    requires Numbered(history, stream, logged, logs) && Handled(stream, taken, logged, held, consumer)
    ensures Numbered(history, stream + [item], logged, logs) && Handled(stream + [item], taken, logged, held, consumer)
  {
  }

  lemma EnqueueTerminates<T>(sent: seq<Envelope<T>>, stream: seq<Item<T>>, start: nat, queue: seq<Item<T>>, capacity: nat,
                             taken: seq<nat>, drops: nat, consumer: Consumer, item: Item<T>)
    requires Terminated(stream, start, taken, true, consumer) && Closed(sent, stream, consumer, true)
    requires capacity >= 1 && Conserved(stream, start, queue, capacity, taken, drops)
    ensures var over := if |queue| >= capacity then 1 else 0;
            Terminated(stream + [item], start + over, taken, item.Event?, consumer)
    ensures Closed(sent, stream + [item], consumer, item.Event?)
  {
  }

  /** While the producer runs, no terminal envelope is held or sent, so a new drop may be counted. */
  lemma StillAccounted<T>(reported: nat, dropped: nat, drops: nat, consumer: Consumer, held: Held<T>, stream: seq<Item<T>>,
                          taken: seq<nat>, logged: seq<nat>, producing: bool, start: nat)
    requires Accounted(reported, dropped, drops, consumer, held) && Handled(stream, taken, logged, held, consumer)
    requires Terminated(stream, start, taken, producing, consumer) && producing
    ensures Accounted(reported, dropped + 1, drops + 1, consumer, held)
  {
  }

  lemma LogIsHandled<T>(stream: seq<Item<T>>, taken: seq<nat>, logged: seq<nat>, held: Held<T>, consumer: Consumer)
    requires Handled(stream, taken, logged, held, consumer) && held.Holds?
    ensures Handled(stream, taken, logged + [taken[|taken| - 1]], Nothing, Waiting)
  {
  }

  lemma LogLeavesOpen<T>(sent: seq<Envelope<T>>, stream: seq<Item<T>>, start: nat, taken: seq<nat>, producing: bool,
                         consumer: Consumer, envelope: Envelope<T>)
    requires Closed(sent, stream, consumer, producing) && Terminated(stream, start, taken, producing, consumer)
    requires Running(consumer) && !envelope.Closing?
    ensures Closed(sent + [envelope], stream, Waiting, producing) && Terminated(stream, start, taken, producing, Waiting)
  {
  }

  /** What sending the held log does to everything but the counters. */
  lemma LogIsDelivered<T>(history: seq<T>, sent: seq<Envelope<T>>, stream: seq<Item<T>>, start: nat, taken: seq<nat>,
                          logged: seq<nat>, held: Held<T>, producing: bool, consumer: Consumer, envelope: Envelope<T>,
                          dropped: nat, drops: nat)
    requires Closed(sent, stream, consumer, producing) && Terminated(stream, start, taken, producing, consumer)
    requires Accounted(Reported(sent), dropped, drops, consumer, held)
    requires Handled(stream, taken, logged, held, consumer) && held.Holds? && held.item.Event?
    requires Numbered(history, stream, logged, Logs(sent)) && (consumer.Holding? || consumer.Warned?)
    requires envelope == Outgoing(held.item, |Logs(sent)|)
    ensures taken != []
    ensures var sent', logged' := sent + [envelope], logged + [taken[|taken| - 1]];
            && Closed(sent', stream, Waiting, producing) && Terminated(stream, start, taken, producing, Waiting)
            && Handled(stream, taken, logged', Nothing, Waiting)
            && Numbered(history, stream, logged', Logs(sent')) && |Logs(sent')| == |Logs(sent)| + 1
            && Accounted<T>(Reported(sent'), dropped, drops, Waiting, Nothing)
  {
    LogIsNumbered(history, stream, logged, Logs(sent), taken[|taken| - 1]);
    LogIsHandled(stream, taken, logged, held, consumer);
    LogLeavesOpen(sent, stream, start, taken, producing, consumer, envelope);
    Sent(sent, envelope);
  }

  // ---------------------------------------------------------------- the connection

  class Connection<T> {
    const capacity: nat
    const history: seq<T>
    var queue: seq<Item<T>>
    var dropped: nat
    var sequence: nat
    var held: Held<T>
    var producing: bool
    var consumer: Consumer
    var sent: seq<Envelope<T>>

    /** Everything ever enqueued, in order. */
    ghost var stream: seq<Item<T>>
    /** How much of the stream has left the queue. */
    ghost var start: nat
    /** The positions in the stream the consumer took, and those it sent as logs. */
    ghost var taken: seq<nat>
    ghost var logged: seq<nat>
    /** How many entries were dropped. */
    ghost var drops: nat

    ghost predicate Valid()
      reads this
    {
      && capacity >= 1
      && Conserved(stream, start, queue, capacity, taken, drops)
      && Terminated(stream, start, taken, producing, consumer)
      && Handled(stream, taken, logged, held, consumer)
      && Numbered(history, stream, logged, Logs(sent)) && sequence == |Logs(sent)|
      && Accounted(Reported(sent), dropped, drops, consumer, held)
      && Closed(sent, stream, consumer, producing)
    }

    /** The history phase: the connected status, the numbered history, and without follow the eof. */
    constructor (history: seq<T>, follow: bool, capacity: nat)
      requires capacity >= 1
      ensures Valid() && this.history == history && this.capacity == capacity
      ensures stream == [] && drops == 0
      ensures consumer == if follow then Waiting else NotFollowing
      ensures |sent| == |history| + (if follow then 1 else 2) && sent[0] == Connected
      ensures forall i :: 0 <= i < |history| ==> sent[i + 1] == Log(i + 1, history[i])
      ensures !follow ==> sent[|history| + 1] == Closing(Eof)
    {
      this.history, this.capacity := history, capacity;
      queue, dropped, held, producing := [], 0, Nothing, follow;
      consumer := if follow then Waiting else NotFollowing;
      stream, start, taken, logged, drops := [], 0, [], [], 0;
      sent, sequence := [], 0;
      new;
      SendHistory();
      if !follow {
        Send(Closing(Eof));
      }
    }

    method SendHistory()
      requires sent == [] && sequence == 0
      modifies this`sent, this`sequence
      ensures sequence == |Logs(sent)| == |history| && Reported(sent) == 0 && NoneCloses(sent)
      ensures forall j :: 0 <= j < |history| ==> Logs(sent)[j] == Log(j + 1, history[j])
      ensures |sent| == |history| + 1 && sent[0] == Connected
      ensures forall j :: 0 <= j < |history| ==> sent[j + 1] == Log(j + 1, history[j])
    {
      Send(Connected);
      for i := 0 to |history|
        invariant sequence == i == |Logs(sent)| && Reported(sent) == 0 && NoneCloses(sent)
        invariant forall j :: 0 <= j < i ==> Logs(sent)[j] == Log(j + 1, history[j])
        invariant |sent| == i + 1 && sent[0] == Connected
        invariant forall j :: 0 <= j < i ==> sent[j + 1] == Log(j + 1, history[j])
      {
        sequence := sequence + 1;
        Send(Log(sequence, history[i]));
      }
    }

    method Send(envelope: Envelope<T>)
      modifies this`sent
      ensures sent == old(sent) + [envelope]
      ensures Logs(sent) == old(Logs(sent)) + (if envelope.Log? then [envelope] else [])
      ensures Reported(sent) == old(Reported(sent)) + (if envelope.Warning? then envelope.count else 0)
    {
      Sent(sent, envelope);
      sent := sent + [envelope];
    }

    /** enqueue_bounded: a full queue gives up its oldest entry. */
    method EnqueueBounded(item: Item<T>)
      requires capacity >= 1 && Conserved(stream, start, queue, capacity, taken, drops)
      modifies this`queue, this`dropped, this`stream, this`start, this`drops
      ensures Conserved(stream, start, queue, capacity, taken, drops) && stream == old(stream) + [item]
      ensures var over := if |old(queue)| >= capacity then 1 else 0;
              && queue == old(queue)[over..] + [item] && dropped == old(dropped) + over
              && drops == old(drops) + over && start == old(start) + over
    {
      EnqueueConserves(stream, start, queue, capacity, taken, drops, item);
      if |queue| >= capacity {
        queue := queue[1..];
        dropped := dropped + 1;
        start, drops := start + 1, drops + 1;
      }
      queue := queue + [item];
      stream := stream + [item];
    }

    /** The producer's last or next item, under every invariant. */
    method Enqueue(item: Item<T>)
      requires Valid() && producing
      modifies this`queue, this`dropped, this`stream, this`start, this`drops, this`producing
      ensures Valid() && stream == old(stream) + [item] && producing == item.Event?
      ensures var over := if |old(queue)| >= capacity then 1 else 0;
              queue == old(queue)[over..] + [item] && dropped == old(dropped) + over && drops == old(drops) + over
    {
      StreamGrows(history, stream, taken, logged, Logs(sent), held, consumer, item);
      EnqueueTerminates(sent, stream, start, queue, capacity, taken, drops, consumer, item);
      StillAccounted(Reported(sent), dropped, drops, consumer, held, stream, taken, logged, producing, start);
      EnqueueBounded(item);
      producing := item.Event?;
    }

    /** The source yields an event. */
    method Produce(event: T)
      requires Valid() && producing
      modifies this`queue, this`dropped, this`stream, this`start, this`drops, this`producing
      ensures Valid() && stream == old(stream) + [Event(event)] && producing
      ensures var over := if |old(queue)| >= capacity then 1 else 0;
              queue == old(queue)[over..] + [Event(event)] && dropped == old(dropped) + over && drops == old(drops) + over
    {
      Enqueue(Event(event));
    }

    /** The source is exhausted or fails; the producer is done after its last envelope. */
    method EndSource(terminal: Terminal)
      requires Valid() && producing
      modifies this`queue, this`dropped, this`stream, this`start, this`drops, this`producing
      ensures Valid() && stream == old(stream) + [End(terminal)] && !producing
      ensures var over := if |old(queue)| >= capacity then 1 else 0;
              queue == old(queue)[over..] + [End(terminal)] && dropped == old(dropped) + over && drops == old(drops) + over
    {
      Enqueue(End(terminal));
    }

    /** queue.get returns the oldest entry. */
    method Take()
      requires Valid() && consumer.Waiting? && queue != []
      modifies this`queue, this`held, this`consumer, this`start, this`taken
      ensures Valid() && consumer == Holding && held == Holds(old(queue[0])) && queue == old(queue[1..])
    {
      TakeConserves(stream, start, queue, capacity, taken, drops);
      held := Holds(queue[0]);
      queue := queue[1..];
      taken := taken + [start];
      start := start + 1;
      consumer := Holding;
    }

    /** The loop body from the wait: report the drops, or deliver at once when there is none. */
    method Resume()
      requires Valid() && consumer.Holding?
      modifies this`dropped, this`sequence, this`held, this`consumer, this`sent, this`logged
      ensures Valid() && dropped == 0
      ensures old(dropped) > 0 ==> consumer == Warned && sent == old(sent) + [Warning(old(dropped))] && held == old(held)
      ensures old(dropped) == 0 ==>
        sent == old(sent) + [Outgoing(old(held.item), old(sequence))] && held == Nothing && consumer == AfterDelivery(old(held.item))
    {
      if dropped > 0 {
        var count := dropped;
        dropped := 0;
        Send(Warning(count));
        consumer := Warned;
      } else if held.item.Event? {
        DeliverLog();
      } else {
        DeliverTerminal();
      }
    }

    /** After the warning was sent. */
    method Deliver()
      requires Valid() && consumer.Warned?
      modifies this`sequence, this`held, this`consumer, this`sent, this`logged
      ensures Valid() && held == Nothing && consumer == AfterDelivery(old(held.item))
      ensures sent == old(sent) + [Outgoing(old(held.item), old(sequence))]
    {
      if held.item.Event? {
        DeliverLog();
      } else {
        DeliverTerminal();
      }
    }

    method DeliverLog()
      requires Valid() && (consumer.Warned? || consumer.Holding?) && held.item.Event?
      modifies this`sequence, this`held, this`consumer, this`sent, this`logged
      ensures Valid() && held == Nothing && consumer == Waiting
      ensures sent == old(sent) + [Outgoing(old(held.item), old(sequence))]
    {
      var envelope := Outgoing(held.item, sequence);
      LogIsDelivered(history, sent, stream, start, taken, logged, held, producing, consumer, envelope, dropped, drops);
      sequence, sent, logged, held, consumer := sequence + 1, sent + [envelope], logged + [taken[|taken| - 1]], Nothing, Waiting;
    }

    method DeliverTerminal()
      requires Valid() && (consumer.Warned? || (consumer.Holding? && dropped == 0)) && held.item.End?
      modifies this`held, this`consumer, this`sent
      ensures Valid() && held == Nothing && consumer == Finished
      ensures sent == old(sent) + [Outgoing(old(held.item), old(sequence))]
    {
      var envelope := Outgoing(held.item, sequence);
      assert taken[|taken| - 1] == |stream| - 1;
      Send(envelope);
      held := Nothing;
      consumer := Finished;
    }

    /** A disconnect, a client message or the end of the session; the producer is cancelled. */
    method Stop()
      requires Valid() && Running(consumer)
      modifies this`consumer, this`producing
      ensures Valid() && consumer == Stopped && !producing
    {
      consumer := Stopped;
      producing := false;
    }

    /** A step of the producer; one that is not possible is passed over. */
    method PerformProducer(step: Step<T>)
      requires Valid() && (step.Produces? || step.SourceEnds?)
      modifies this`queue, this`dropped, this`stream, this`start, this`drops, this`producing
      ensures Valid()
      ensures stream == old(stream) + Enqueued([step], old(producing))
      // Exactly a full queue gives up an entry, its oldest.
      ensures if !old(producing) then queue == old(queue) && dropped == old(dropped) && drops == old(drops)
              else
                var over := if |old(queue)| >= capacity then 1 else 0;
                && queue == old(queue)[over..] + [if step.Produces? then Event(step.event) else End(step.terminal)]
                && dropped == old(dropped) + over && drops == old(drops) + over
      ensures producing == (old(producing) && step.Produces?)
    {
      if producing {
        match step {
          case Produces(event) => Produce(event);
          case SourceEnds(terminal) => EndSource(terminal);
        }
      }
    }

    /** A step of the consumer, or its end; one that is not possible is passed over. */
    method PerformConsumer(step: Step<T>)
      requires Valid() && !step.Produces? && !step.SourceEnds?
      modifies this`queue, this`dropped, this`sequence, this`held, this`consumer, this`sent, this`start, this`taken, this`logged,
               this`producing
      ensures Valid()
      ensures producing == (old(producing) && !step.Stops?)
      ensures if step.Takes? && old(consumer.Waiting?) && old(queue) != [] then
                && consumer == Holding && held == Holds(old(queue)[0]) && queue == old(queue)[1..]
                && sent == old(sent) && dropped == old(dropped)
              else if step.Resumes? && old(consumer.Holding?) && old(dropped) > 0 then
                && consumer == Warned && held == old(held) && queue == old(queue)
                && sent == old(sent) + [Warning(old(dropped))] && dropped == 0
              else if (step.Resumes? && old(consumer.Holding?)) || (step.Delivers? && old(consumer.Warned?)) then
                && consumer == (if old(held.item.Event?) then Waiting else Finished) && held == Nothing && queue == old(queue)
                && sent == old(sent) + [Outgoing(old(held.item), old(sequence))] && dropped == old(dropped)
              else
                && consumer == (if step.Stops? && old(Running(consumer)) then Stopped else old(consumer))
                && held == old(held) && queue == old(queue) && sent == old(sent) && dropped == old(dropped)
    {
      match step {
        case Takes => PerformTake();
        case Resumes => PerformResume();
        case Delivers =>
          if consumer.Warned? {
            Deliver();
          }
        case Stops =>
          if Running(consumer) {
            Stop();
          }
      }
    }

    method PerformTake()
      requires Valid()
      modifies this`queue, this`held, this`consumer, this`start, this`taken
      ensures Valid()
      ensures if old(consumer.Waiting?) && old(queue) != []
              then consumer == Holding && held == Holds(old(queue)[0]) && queue == old(queue)[1..]
              else consumer == old(consumer) && held == old(held) && queue == old(queue)
    {
      if consumer.Waiting? && queue != [] {
        Take();
      }
    }

    method PerformResume()
      requires Valid()
      modifies this`dropped, this`sequence, this`held, this`consumer, this`sent, this`logged
      ensures Valid()
      ensures if !old(consumer.Holding?) then
                consumer == old(consumer) && held == old(held) && sent == old(sent) && dropped == old(dropped)
              else if old(dropped) > 0 then
                consumer == Warned && held == old(held) && sent == old(sent) + [Warning(old(dropped))] && dropped == 0
              else
                && consumer == (if old(held.item.Event?) then Waiting else Finished) && held == Nothing
                && sent == old(sent) + [Outgoing(old(held.item), old(sequence))] && dropped == old(dropped)
    {
      if consumer.Holding? {
        Resume();
      }
    }

    /** One step of the schedule. */
    method Perform(step: Step<T>)
      requires Valid()
      modifies this
      ensures Valid() && old(sent) <= sent && old(drops) <= drops
      ensures stream == old(stream) + Enqueued([step], old(producing))
      ensures producing == (old(producing) && !step.SourceEnds? && !step.Stops?)
    {
      if step.Produces? || step.SourceEnds? {
        PerformProducer(step);
      } else {
        PerformConsumer(step);
      }
    }

    /** Any interleaving of the tasks. What is enqueued depends on the producer's steps alone. */
    method Serve(schedule: seq<Step<T>>)
      requires Valid()
      modifies this
      ensures Valid() && old(sent) <= sent && old(drops) <= drops
      ensures stream == old(stream) + Enqueued(schedule, old(producing))
      decreases |schedule|
    {
      if schedule != [] {
        EnqueuedNext(schedule, producing);
        ghost var first, rest := Enqueued([schedule[0]], producing), Enqueued(schedule, producing);
        Perform(schedule[0]);
        ghost var more := Enqueued(schedule[1..], producing);
        assert rest == first + more;
        Serve(schedule[1..]);
        assert stream == old(stream) + first + more == old(stream) + (first + more);
      }
    }

    /** Where the consumer is in its loop. */
    function Rank(): nat
      reads this
    {
      if consumer.Holding? then 3 else if consumer.Warned? then 2 else if consumer.Waiting? then 1 else 0
    }

    /** The next step of the consumer alone, after the source has ended. */
    method Advance()
      requires Valid() && Ended(stream) && Running(consumer)
      modifies this`queue, this`dropped, this`sequence, this`held, this`consumer, this`sent, this`start, this`taken, this`logged
      ensures Valid() && (Running(consumer) || consumer.Finished?) && old(taken) <= taken
      ensures |taken| + |queue| == |old(taken)| + |old(queue)|
      ensures |queue| < |old(queue)| || (queue == old(queue) && Rank() < old(Rank()))
    {
      if consumer.Waiting? {
        LastIsQueued(this);
        Take();
      } else if consumer.Holding? {
        Resume();
      } else {
        Deliver();
      }
    }

    /** Once the source has ended, the consumer alone delivers what is queued and then the terminal. */
    method Drain()
      requires Valid() && Ended(stream) && Running(consumer)
      modifies this`queue, this`dropped, this`sequence, this`held, this`consumer, this`sent, this`start, this`taken, this`logged
      ensures Valid() && consumer.Finished? && old(taken) <= taken && |taken| == |old(taken)| + |old(queue)|
    {
      while !consumer.Finished?
        invariant Valid() && (Running(consumer) || consumer.Finished?)
        invariant old(taken) <= taken && |taken| + |queue| == |old(taken)| + |old(queue)|
        decreases |queue|, Rank()
      {
        Advance();
      }
      TerminalIsLast(this);
    }
  }

  // ---------------------------------------------------------------- what the invariant says

  lemma LastIsQueued<T>(c: Connection<T>)
    requires c.Valid() && Ended(c.stream) && c.consumer.Waiting?
    ensures c.queue != [] && c.queue[|c.queue| - 1] == c.stream[|c.stream| - 1]
  {
  }

  lemma TerminalIsLast<T>(c: Connection<T>)
    requires c.Valid() && c.consumer.Finished?
    ensures c.queue == [] && c.taken[|c.taken| - 1] == |c.stream| - 1
  {
  }

  function EventCount<T>(items: seq<Item<T>>): nat {
    if items == [] then 0 else EventCount(items[..|items| - 1]) + (if items[|items| - 1].Event? then 1 else 0)
  }

  lemma {:induction false} AllEvents<T>(items: seq<Item<T>>)
    requires forall i :: 0 <= i < |items| ==> items[i].Event?
    ensures EventCount(items) == |items|
  {
    if items == [] {
    } else {
      AllEvents(items[..|items| - 1]);
    }
  }

  /** At every moment of every interleaving: what was enqueued was sent as a log, is held by the
      consumer, is queued or was dropped; logs went out in the order they were enqueued and before
      everything still queued; and the queue is the newest part of the stream. */
  lemma FollowIsConserved<T>(c: Connection<T>)
    requires c.Valid() && !c.consumer.Finished?
    ensures |Logs(c.sent)| - |c.history| + (if c.held.Holds? then 1 else 0) + |c.queue| + c.drops == |c.stream|
    ensures Increasing(c.logged) && |c.logged| == |Logs(c.sent)| - |c.history|
    ensures forall i :: 0 <= i < |c.logged| ==>
      c.logged[i] < |c.stream| - |c.queue| && c.stream[c.logged[i]].Event?
      && Logs(c.sent)[|c.history| + i] == Log(|c.history| + i + 1, c.stream[c.logged[i]].event)
    ensures c.queue == c.stream[|c.stream| - |c.queue|..]
  {
    assert forall i :: 0 <= i < |c.logged| ==> c.logged[i] == c.taken[i];
  }

  /** The logs of the history and of the follow phase are numbered together from one, without a gap. */
  lemma NumbersAreGapless<T>(c: Connection<T>, i: nat)
    requires c.Valid() && i < |Logs(c.sent)|
    ensures Logs(c.sent)[i].Log? && Logs(c.sent)[i].number == i + 1
    ensures c.sequence == |Logs(c.sent)|
  {
    if i >= |c.history| {
      var k := i - |c.history|;
      assert Logs(c.sent)[|c.history| + k] == Log(|c.history| + k + 1, c.stream[c.logged[k]].event);
    }
  }

  /** The terminal envelope is never dropped: while the loop runs it is queued last or held, and what
      is not running any more has sent it or was stopped. */
  lemma TerminalIsNeverDropped<T>(c: Connection<T>)
    requires c.Valid() && Ended(c.stream) && !c.consumer.Stopped?
    ensures var terminal := c.stream[|c.stream| - 1];
            || (c.queue != [] && c.queue[|c.queue| - 1] == terminal)
            || c.held == Holds(terminal)
            || (c.consumer.Finished? && c.sent[|c.sent| - 1] == Closing(terminal.terminal))
  {
  }

  /** Once it is delivered, every event was sent or counted in a warning. */
  lemma DeliveredIsAccounted<T>(c: Connection<T>)
    requires c.Valid() && c.consumer.Finished?
    ensures Reported(c.sent) == c.drops && c.dropped == 0 && c.queue == []
    ensures |Logs(c.sent)| - |c.history| + Reported(c.sent) == EventCount(c.stream)
    ensures c.sent[|c.sent| - 1] == Closing(c.stream[|c.stream| - 1].terminal)
  {
    TerminalIsLast(c);
    AllEvents(c.stream[..|c.stream| - 1]);
  }
}
