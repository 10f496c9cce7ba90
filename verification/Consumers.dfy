/** The event table of one consumer, its sending loop and its heartbeat. */
module Consumers {
  import opened Basics
  import opened Events
  import opened EventRuns

  class EventConsumer {
    const settings: Settings
    var rows: map<nat, Event>
    var now: int
    var health: Health
    ghost var log: seq<Attempt>
    ghost var arrived: seq<Key>

    ghost function Snapshot(): World
      reads this
    {
      World(rows, now, log, arrived)
    }

    constructor (settings: Settings, now: int)
      ensures this.settings == settings && health == Unknown
      ensures Snapshot() == World(map[], now, [], [])
    {
      this.settings := settings;
      rows, this.now, log, health, arrived := map[], now, [], Unknown, [];
    }

    /** A reading of the clock, which never goes back. */
    method Clock() returns (t: int)
      modifies `now
      ensures old(now) <= now == t
    {
      var passed: nat :| passed >= 0;
      now := now + passed;
      t := now;
    }

    /** The endpoint may answer anything. */
    method Post() returns (reply: Reply)
    {
      reply := *;
    }

    /** A change of a data point becomes an event. */
    method DataPointEvent(id: nat, pointInTime: int)
      requires forall k | k in arrived :: k.id < id
      modifies `rows, `arrived
      ensures Next(settings, old(Snapshot()), Snapshot(), Arrive(id, pointInTime))
      ensures rows == old(rows)[id := Event(pointInTime, New, 0, 0, 0, None)]
    {
      rows := rows[id := Event(pointInTime, New, 0, 0, 0, None)];
      arrived := arrived + [Key(pointInTime, id)];
    }

    /** One turn of the sending loop, inside its transaction. */
    method HandleEvent(id: nat) returns (outcome: Handled)
      requires id in rows
      modifies `rows, `now, `log
      ensures Handles(settings, old(Snapshot()), Snapshot(), id, outcome)
    {
      var event := rows[id];
      var started := Clock();
      if event.handleAt.Some? {
        if event.handleAt.value > started {
          return Early(started);
        } else if event.retriesInCycle >= settings.backoffEvery {
          event := event.(backoffCycles := event.backoffCycles + 1, retriesInCycle := 0);
        }
      }
      var reply := Post();
      if reply == Delivered {
        event := event.(state := Success);
        log := log + [Attempt(Key(event.pointInTime, id), event.backoffCycles, reply, started, started, |arrived|)];
        outcome := Done(started);
      } else {
        event := event.(retries := event.retries + 1, retriesInCycle := event.retriesInCycle + 1);
        var finished := Clock();
        if reply.TooManyRequests? {
          event := event.(handleAt := Some(finished + if reply.retryAfter.Some? then reply.retryAfter.value
                                                      else settings.backoffDelay));
        } else if event.retriesInCycle >= settings.backoffEvery {
          event := event.(handleAt := Some(finished + settings.backoffDelay));
        }
        event := event.(state := if settings.retryMax > 0 && event.retries > settings.retryMax then Failed else Retry);
        log := log + [Attempt(Key(event.pointInTime, id), event.backoffCycles, reply, started, finished, |arrived|)];
        outcome := Broken(started, reply, finished);
      }
      rows := rows[id := event];
    }

    /** The sending loop: at most `room` events, in queue order, up to the first that is not due or fails. */
    method TrySendEvents(room: Option<nat>) returns (more: bool, count: nat, ghost call: Call)
      modifies `rows, `now, `log, `health
      ensures Next(settings, old(Snapshot()), Snapshot(), Send(room, call, more, count))
      ensures health == HealthAfter(call, old(health))
    {
      ghost var w, times, stop := Snapshot(), [], Exhausted;
      ghost var sent := w;
      var q := Queue(settings, rows);
      // one more than there is room for, to see whether any are left
      var batch := if room.Some? && |q| > room.value + 1 then q[..room.value + 1] else q;
      more, count := false, 0;
      var newHealth := health;
      while count < |batch|
        invariant count <= |batch| && |times| == count && !more && stop == Exhausted
        invariant health == old(health) && newHealth == HealthAfter(Call(times, stop), health)
        invariant sent == Snapshot() && Delivering(settings, w, sent, q, times)
        invariant room.Some? ==> count <= room.value
      {
        if room.Some? && count >= room.value {
          more, stop := true, Full;
          break;
        }
        var id := batch[count];
        count := count + 1;
        var outcome := HandleEvent(id);
        match outcome {
          case Early(checked) =>
            stop := NotDue(checked);
            break;
          case Done(started) =>
            newHealth := Healthy;
            DeliverNext(settings, w, sent, q, times, started);
            times, sent := times + [started], Snapshot();
          case Broken(started, reply, finished) =>
            newHealth := if reply.TooManyRequests? then RateLimit else Unhealthy;
            stop := Missed(started, reply, finished);
            break;
        }
      }
      call := Call(times, stop);
      assert StopsAt(settings, sent, Snapshot(), q, room, call, count);
      assert newHealth == HealthAfter(call, health);
      health := newHealth;
      CallIsStep(settings, w, sent, Snapshot(), room, call, more, count);
    }

    /** The consumer's heartbeat: batches of a hundred until a call has nothing more to report. */
    method ConsumerHeartbeat(limit: int)
      returns (total: nat, requeued: nat, ghost batches: seq<World>, ghost last: Call)
      modifies `rows, `now, `log, `health
      ensures Beats(settings, old(Snapshot()), batches) && !last.stop.Full?
      ensures exists count :: total == BATCH * (|batches| - 1) + count
                              && Next(settings, batches[|batches| - 1], Snapshot(),
                                      Send(Some(BATCH), last, false, count))
      ensures requeued == Requeues(|batches| - 1, limit)
    {
      total, requeued, batches := 0, 0, [Snapshot()];
      while true
        invariant Beats(settings, old(Snapshot()), batches) && batches[|batches| - 1] == Snapshot()
        invariant total == BATCH * (|batches| - 1) && requeued == Requeues(|batches| - 1, limit)
        decreases |Pending(rows)|
      {
        ghost var before := Snapshot();
        var more, count;
        more, count, last := TrySendEvents(Some(BATCH));
        total := total + count;
        if !more {
          break;
        }
        FullBatch(settings, before, Snapshot(), last, count);
        batches := batches + [Snapshot()];
        if total > limit {
          requeued := requeued + 1;
        }
      }
    }

    /** Clean-up of the events that are done with. */
    method DeleteOldEvents()
      modifies `rows, `now
      ensures now >= old(now)
      ensures var w := old(Snapshot()).(now := now); Next(settings, w, Snapshot(), Clean(OldIds(w)))
      ensures forall id :: id in rows <==>
                id in old(rows) && !((old(rows)[id].state == Failed || old(rows)[id].state == Success)
                                     && old(rows)[id].pointInTime <= now - 2_592_000)
    {
      var t := Clock();
      rows := map id | id in rows && !((rows[id].state == Failed || rows[id].state == Success)
                                       && rows[id].pointInTime <= t - RETENTION) :: rows[id];
    }
  }

  /** How many events the heartbeat sends in one transaction. */
  const BATCH: nat := 100

  /** Two worlds with one full batch between them: its first hundred pending events were delivered, nothing else
      happened. */
  ghost predicate Batch(s: Settings, w: World, w': World) {
    exists times :: |times| == BATCH < |Queue(s, w.rows)| && Delivering(s, w, w', Queue(s, w.rows), times)
  }

  /** The worlds at the ends of the full batches of a heartbeat. */
  ghost predicate Beats(s: Settings, w: World, batches: seq<World>) {
    batches != [] && batches[0] == w && forall i | 0 < i < |batches| :: Batch(s, batches[i - 1], batches[i])
  }

  /** The heartbeat queues itself again after every full batch that ends above the limit, and goes on. */
  function Requeues(batches: nat, limit: int): nat {
    if batches == 0 then 0 else Requeues(batches - 1, limit) + if BATCH * batches > limit then 1 else 0
  }

  lemma {:induction false} RequeuesCount(batches: nat, limit: nat)
    ensures Requeues(batches, limit) == if batches > limit / BATCH then batches - limit / BATCH else 0
  {
    if batches > 0 {
      RequeuesCount(batches - 1, limit);
    }
  }

  /** What became of one event of a call. */
  datatype Handled = Early(checked: int) | Done(started: int) | Broken(started: int, reply: Reply, finished: int)

  /** One turn of the sending loop: the event is left alone if it is not due, delivered, or its attempt fails. */
  ghost predicate Handles(s: Settings, w: World, w': World, id: nat, outcome: Handled)
    requires id in w.rows
  {
    match outcome
    case Early(checked) => w' == w.(now := checked) && w.now <= checked && !Due(w.rows[id], checked)
    case Done(started) => w' == Deliver(s, w, id, started) && w.now <= started && Due(w.rows[id], started)
    case Broken(started, reply, finished) =>
      && w' == Miss(s, w, id, started, reply, finished)
      && w.now <= started <= finished && Due(w.rows[id], started) && reply != Delivered
  }

  /** The same in terms of the fields. Not due means that handle_at lies ahead; a failure counts, and sets handle_at
      from the answer or, at the end of a cycle, from the settings; no other row changes. */
  lemma HandledFields(s: Settings, w: World, w': World, id: nat, outcome: Handled)
    requires id in w.rows && Handles(s, w, w', id, outcome)
    ensures id in w'.rows && w'.rows == w.rows[id := w'.rows[id]]
    ensures
      var e, e' := w.rows[id], w'.rows[id];
      var renewed := e.handleAt.Some? && e.retriesInCycle >= s.backoffEvery;
      match outcome
      case Early(checked) => w' == w.(now := checked) && e.handleAt.Some? && e.handleAt.value > checked
      case Done(started) =>
        && (e.handleAt.Some? ==> e.handleAt.value <= started)
        && e' == Event(e.pointInTime, Success, e.retries, e.backoffCycles + (if renewed then 1 else 0),
                       if renewed then 0 else e.retriesInCycle, e.handleAt)
        && w'.log == w.log + [Attempt(Key(e.pointInTime, id), e'.backoffCycles, Delivered, started, started,
                                      |w.arrived|)]
      case Broken(started, reply, finished) =>
        && (e.handleAt.Some? ==> e.handleAt.value <= started)
        && e'.pointInTime == e.pointInTime && e'.retries == e.retries + 1
        && e'.backoffCycles == e.backoffCycles + (if renewed then 1 else 0)
        && e'.retriesInCycle == (if renewed then 0 else e.retriesInCycle) + 1
        && e'.state == (if s.retryMax > 0 && e'.retries > s.retryMax then Failed else Retry)
        && e'.handleAt == (match reply
                           case TooManyRequests(Some(seconds)) => Some(finished + seconds)
                           case TooManyRequests(None) => Some(finished + s.backoffDelay)
                           case _ => if e'.retriesInCycle >= s.backoffEvery then Some(finished + s.backoffDelay)
                                     else e.handleAt)
        && w'.log == w.log + [Attempt(Key(e.pointInTime, id), e'.backoffCycles, reply, started, finished,
                                      |w.arrived|)]
  {
  }

  lemma CallIsStep(s: Settings, w: World, sent: World, w': World, room: Option<nat>, call: Call, more: bool, count: nat)
    requires IsCall(s, w, sent, w', room, call, more, count)
    ensures Next(s, w, w', Send(room, call, more, count))
  {
  }

  /** The health after a call is told by the last request it made. */
  lemma HealthFromLog(s: Settings, w: World, w': World, step: Step, health: Health)
    requires Next(s, w, w', step) && step.Send?
    ensures w.log <= w'.log
    ensures HealthAfter(step.call, health) == if w'.log == w.log then health
                                              else match w'.log[|w'.log| - 1].reply
                                                   case Delivered => Healthy
                                                   case TooManyRequests(_) => RateLimit
                                                   case Refused => Unhealthy
  {
  }

  /** A call that has more to do delivered exactly as many events as it had room for, the first ones. */
  lemma FullBatch(s: Settings, w: World, w': World, call: Call, count: nat)
    requires Next(s, w, w', Send(Some(BATCH), call, true, count))
    ensures count == 100 && Batch(s, w, w') && |Pending(w'.rows)| < |Pending(w.rows)|
  {
    var q := Queue(s, w.rows);
    QueueMeaning(s, w.rows);
    assert Delivering(s, w, w', q, call.times);
    assert q[0] == q[..BATCH][0];
    assert q[0] in Pending(w.rows) && q[0] !in Pending(w'.rows);
    Smaller(Pending(w'.rows), Pending(w.rows), q[0]);
  }

  lemma Smaller(a: set<nat>, b: set<nat>, x: nat)
    requires a <= b && x in b && x !in a
    ensures |a| < |b|
  {
    SubsetSize(a, b - {x});
  }

  /** In general a call counts its deliveries, and one more if it stopped on an event; it reports more events
      exactly when its room was used up, and then it turned exactly that many events to SUCCESS, the first ones. */
  lemma CallCounts(s: Settings, w: World, w': World, room: Option<nat>, call: Call, more: bool, count: nat)
    requires Next(s, w, w', Send(room, call, more, count))
    ensures count == |call.times| + if call.stop.NotDue? || call.stop.Missed? then 1 else 0
    ensures more <==> room.Some? && room.value < |Pending(w.rows)| && |call.times| == room.value
    ensures more ==> count == room.value && forall id | id in w.rows ::
                       w'.rows[id] == if id in Queue(s, w.rows)[..room.value]
                                      then Succeeds(s, w.rows[id]) else w.rows[id]
  {
    QueueMeaning(s, w.rows);
  }

  /** Where a heartbeat ends: nothing is pending, or the first pending event is not due, or the last attempt failed. */
  lemma HeartbeatEnd(s: Settings, w: World, w': World, call: Call, count: nat)
    requires Next(s, w, w', Send(Some(BATCH), call, false, count))
    ensures call.stop.Exhausted? ==> Pending(w'.rows) == {}
    ensures call.stop.NotDue? ==> exists id :: id in w'.rows && Head(s, w', id) && !Due(w'.rows[id], w'.now)
    ensures call.stop.Missed? ==> w'.log != [] && !w'.log[|w'.log| - 1].reply.Delivered?
  {
    var q := Queue(s, w.rows);
    QueueMeaning(s, w.rows);
    match call.stop {
      case Exhausted =>
        assert q[..|call.times|] == q;
      case NotDue(_) =>
        NextIsHead(s, w, call.times);
        assert Head(s, w', q[|call.times|]);
      case _ =>
    }
  }
}
