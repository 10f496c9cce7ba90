/** Backoff: attempts of later cycles come late enough. */
module EventBackoff {
  import opened Basics
  import opened Events
  import opened EventRuns
  import opened EventLedger
  import opened EventOrder
  import opened EventPromise

  /** No endpoint asked for a wait shorter than the configured one. */
  ghost predicate Patient(s: Settings, log: seq<Attempt>) {
    forall a | a in log && a.reply.TooManyRequests? && a.reply.retryAfter.Some? ::
      a.reply.retryAfter.value >= s.backoffDelay
  }

  predicate Failure(a: Attempt, id: nat) {
    a.key.id == id && !a.reply.Delivered?
  }

  /** The time a cycle may begin at: every cycle after the one a failed attempt was made in costs one delay. */
  function Earliest(s: Settings, a: Attempt, cycle: int): int {
    a.finished + (cycle - a.cycle) * s.backoffDelay
  }

  predicate Full(s: Settings, e: Event) {
    e.retriesInCycle >= Period(s)
  }

  /** The cycle an event is in may have begun, and the one after a full cycle may have, or has to be waited for. */
  ghost predicate Waited(s: Settings, now: int, a: Attempt, e: Event) {
    && now >= Earliest(s, a, e.backoffCycles)
    && (Full(s, e) ==>
          || now >= Earliest(s, a, e.backoffCycles + 1)
          || (e.handleAt.Some? && e.handleAt.value >= Earliest(s, a, e.backoffCycles + 1)))
  }

  ghost predicate TimedRows(s: Settings, rows: map<nat, Event>, w: World) {
    && (forall id | id in rows && !Terminal(rows[id]) :: RowOk(s, rows[id]))
    && (forall a, id | a in w.log && Failure(a, id) && id in rows && !Terminal(rows[id]) ::
        Waited(s, w.now, a, rows[id]))
  }

  /** Attempts for the same event are far enough apart. */
  ghost predicate Spaced(s: Settings, log: seq<Attempt>) {
    forall i, j | 0 <= i < j < |log| && Failure(log[i], log[j].key.id) ::
        log[j].started >= Earliest(s, log[i], log[j].cycle)
  }

  ghost predicate Known(w: World) {
    && (forall a | a in w.log :: exists k :: k in w.arrived && k.id == a.key.id)
    && (forall id | id in w.rows :: exists k :: k in w.arrived && k.id == id)
  }

  /** A call only moves the cycles of an event on, and past a full one. */
  predicate Further(s: Settings, r: Event, e: Event) {
    e == r || e.backoffCycles >= r.backoffCycles + if Full(s, r) then 1 else 0
  }

  ghost predicate Ahead(s: Settings, saved: map<nat, Event>, rows: map<nat, Event>) {
    forall id | id in rows && !Terminal(rows[id]) ::
        id in saved && !Terminal(saved[id]) && Further(s, saved[id], rows[id])
  }

  /** With delays that are not negative, the committed rows are as good as the ones of the call. */
  ghost predicate Timed(s: Settings, saved: map<nat, Event>, w: World) {
    && TimedRows(s, w.rows, w) && Spaced(s, w.log) && Known(w)
    && (s.backoffDelay >= 0 ==> TimedRows(s, saved, w) && Ahead(s, saved, w.rows) && Known(w.(rows := saved)))
  }

  lemma OneCycleMore(s: Settings, a: Attempt, cycle: int)
    ensures Earliest(s, a, cycle + 1) == Earliest(s, a, cycle) + s.backoffDelay
  {
    assert (cycle + 1 - a.cycle) * s.backoffDelay == (cycle - a.cycle) * s.backoffDelay + s.backoffDelay;
  }

  lemma NoCycleMore(s: Settings, a: Attempt, cycle: int)
    requires s.backoffDelay >= 0 && cycle <= a.cycle
    ensures Earliest(s, a, cycle) <= a.finished
  {
    assert (a.cycle - cycle) * s.backoffDelay >= 0;
    assert (cycle - a.cycle) * s.backoffDelay == -((a.cycle - cycle) * s.backoffDelay);
  }

  /** The next cycle begins exactly if the one before is full. */
  lemma BeginCycle(s: Settings, e: Event)
    requires RowOk(s, e) && !Terminal(e)
    ensures Begin(s, e).backoffCycles == e.backoffCycles + if Full(s, e) then 1 else 0
  {
  }

  /** The delay of a full cycle is over when the next one begins. */
  lemma BeginWaited(s: Settings, now: int, e: Event, started: int, a: Attempt)
    requires RowOk(s, e) && !Terminal(e) && Due(e, started) && now <= started && Waited(s, now, a, e)
    ensures started >= Earliest(s, a, Begin(s, e).backoffCycles)
  {
    BeginCycle(s, e);
  }

  /** After a failure the event is not handled again before the delay is over, if its cycle is full. */
  lemma FailsWaited(s: Settings, e: Event, reply: Reply, finished: int, a: Attempt)
    requires RowOk(s, e) && !Terminal(e) && finished >= Earliest(s, a, Begin(s, e).backoffCycles)
    requires reply.TooManyRequests? && reply.retryAfter.Some? ==> reply.retryAfter.value >= s.backoffDelay
    ensures Waited(s, finished, a, Fails(s, e, reply, finished))
  {
    BeginOk(s, e);
    OneCycleMore(s, a, Begin(s, e).backoffCycles);
  }

  lemma AttemptSpaced(s: Settings, w: World, w': World, move: Move)
    requires TimedRows(s, w.rows, w) && Spaced(s, w.log) && Moves(s, w, w', move) && !move.Wait?
    ensures Spaced(s, w'.log)
  {
    forall i | 0 <= i < |w.log| && Failure(w.log[i], move.id)
      ensures move.started >= Earliest(s, w.log[i], w'.log[|w.log|].cycle)
    {
      assert w.log[i] in w.log;
      BeginWaited(s, w.now, w.rows[move.id], move.started, w.log[i]);
    }
  }

  lemma AttemptWaited(s: Settings, w: World, w': World, move: Move, a: Attempt, id: nat)
    requires TimedRows(s, w.rows, w) && Moves(s, w, w', move) && !move.Wait? && Patient(s, w'.log)
    requires a in w'.log && Failure(a, id) && id in w'.rows && !Terminal(w'.rows[id])
    ensures Waited(s, w'.now, a, w'.rows[id])
  {
    var b := w'.log[|w.log|];
    assert b in w'.log && (a in w.log || a == b);
    if id == move.id {
      if a in w.log {
        BeginWaited(s, w.now, w.rows[id], move.started, a);
      }
      FailsWaited(s, w.rows[id], move.reply, move.finished, a);
    }
  }

  lemma AttemptTimedRows(s: Settings, w: World, w': World, move: Move)
    requires TimedRows(s, w.rows, w) && Moves(s, w, w', move) && !move.Wait? && Patient(s, w'.log)
    ensures TimedRows(s, w'.rows, w')
  {
    AttemptKeepsRowOk(s, w.rows[move.id], if move.Fault? then move.reply else Refused,
                      if move.Fault? then move.finished else 0);
    forall a, id | a in w'.log && Failure(a, id) && id in w'.rows && !Terminal(w'.rows[id])
      ensures Waited(s, w'.now, a, w'.rows[id])
    {
      AttemptWaited(s, w, w', move, a, id);
    }
  }

  lemma AttemptAhead(s: Settings, saved: map<nat, Event>, w: World, w': World, move: Move)
    requires TimedRows(s, w.rows, w) && Ahead(s, saved, w.rows) && Moves(s, w, w', move) && !move.Wait?
    ensures Ahead(s, saved, w'.rows)
  {
    BeginCycle(s, w.rows[move.id]);
  }

  /** The rows an undone call goes back to. */
  lemma AttemptTimedSaved(s: Settings, saved: map<nat, Event>, w: World, w': World, move: Move)
    requires s.backoffDelay >= 0 && TimedRows(s, w.rows, w) && TimedRows(s, saved, w) && Ahead(s, saved, w.rows)
    requires Moves(s, w, w', move) && !move.Wait?
    ensures TimedRows(s, saved, w')
  {
    var b := w'.log[|w.log|];
    forall a, id | a in w'.log && Failure(a, id) && id in saved && !Terminal(saved[id])
      ensures Waited(s, w'.now, a, saved[id])
    {
      if a in w.log {
        assert Waited(s, w.now, a, saved[id]);
      } else {
        assert a == b && id == move.id;
        BeginCycle(s, w.rows[id]);
        NoCycleMore(s, b, saved[id].backoffCycles);
        if Full(s, saved[id]) {
          NoCycleMore(s, b, saved[id].backoffCycles + 1);
        }
      }
    }
  }

  lemma AttemptKnown(s: Settings, w: World, w': World, move: Move)
    requires Known(w) && Moves(s, w, w', move) && !move.Wait?
    ensures Known(w')
  {
  }

  lemma AttemptTimed(s: Settings, saved: map<nat, Event>, w: World, w': World, move: Move)
    requires Timed(s, saved, w) && Moves(s, w, w', move) && !move.Wait? && Patient(s, w'.log)
    ensures Timed(s, saved, w')
  {
    AttemptSpaced(s, w, w', move);
    AttemptTimedRows(s, w, w', move);
    AttemptKnown(s, w, w', move);
    if s.backoffDelay >= 0 {
      AttemptAhead(s, saved, w, w', move);
      AttemptTimedSaved(s, saved, w, w', move);
    }
  }

  lemma WaitTimed(s: Settings, saved: map<nat, Event>, w: World, to: int)
    requires Timed(s, saved, w) && to >= w.now
    ensures Timed(s, saved, w.(now := to))
  {
    forall a, e | Waited(s, w.now, a, e) ensures Waited(s, to, a, e) {
    }
  }

  lemma OutsideTimed(s: Settings, w: World, w': World, step: Step)
    requires Timed(s, w.rows, w) && Next(s, w, w', step) && Outside(step)
    ensures Timed(s, w'.rows, w')
  {
    if step.Arrive? {
      assert w'.arrived[|w.arrived|] == Key(step.pointInTime, step.id);
      forall k | k in w.arrived ensures k in w'.arrived && k.id < step.id {
      }
    }
    assert forall a | a in w'.log :: a in w.log;
    assert w'.(rows := w'.rows) == w';
  }

  /** Backoff timing. After any run in which no endpoint asked for a shorter wait than the configured delay, an
      attempt made c cycles after a failed attempt for the same event began at least c delays after that one ended.
      Calls may be cut off, unless the delay is negative. */
  lemma BackoffTiming(s: Settings, ws: seq<World>, steps: seq<Step>, i: nat, j: nat)
    requires Run(s, ws, steps) && Patient(s, ws[|steps|].log)
    requires s.backoffDelay >= 0 || PermitsAll(NO_ABORTS, steps)
    requires i < j < |ws[|steps|].log|
    requires var log := ws[|steps|].log; Failure(log[i], log[j].key.id)
    ensures var log := ws[|steps|].log;
            log[j].started >= log[i].finished + (log[j].cycle - log[i].cycle) * s.backoffDelay
  {
    ghost var inv := (saved: map<nat, Event>, w: World) => Patient(s, w.log) ==> Timed(s, saved, w);
    forall saved, w: World, w': World, move | inv(saved, w) && Moves(s, w, w', move) ensures inv(saved, w') {
      if Patient(s, w'.log) {
        assert Patient(s, w.log) by {
          assert forall a | a in w.log :: a in w'.log;
        }
        if move.Wait? {
          WaitTimed(s, saved, w, move.to);
        } else {
          AttemptTimed(s, saved, w, w', move);
        }
      }
    }
    forall w: World, w': World, step | inv(w.rows, w) && Next(s, w, w', step) && Outside(step)
      ensures inv(w'.rows, w')
    {
      if Patient(s, w.log) {
        OutsideTimed(s, w, w', step);
      }
    }
    PathKeeps(s, inv, Scope(true, s.backoffDelay >= 0), ws, steps);
  }

  /** The first failed attempt for an event is made in its first cycle, so a later attempt in cycle c begins at least
      c delays after the first failure. */
  lemma FirstFailure(s: Settings, ws: seq<World>, steps: seq<Step>, i: nat)
    requires Run(s, ws, steps) && i < |ws[|steps|].log|
    requires Count(ws[|steps|].log[..i], ws[|steps|].log[i].key.id, false) == 0
    ensures ws[|steps|].log[i].cycle == 0
  {
    ghost var inv := (saved: map<nat, Event>, w: World) => FirstSound(s, saved, w);
    forall saved, w: World, w': World, move | inv(saved, w) && Moves(s, w, w', move) ensures inv(saved, w') {
      MoveSound(s, false, saved, w, w', move);
      if !move.Wait? {
        AttemptFirst(s, w, w', move);
      }
    }
    forall w: World, w': World, step | inv(w.rows, w) && Next(s, w, w', step) && Outside(step)
      ensures inv(w'.rows, w')
    {
      OutsideSound(s, false, w, w', step);
    }
    forall saved, w: World, saved', w': World | inv(saved, w) && Ends(ANYTHING, saved, w, saved', w')
      ensures inv(saved', w')
    {
      EndsSound(s, false, saved, w, saved', w');
    }
    StartSound(s, false, ws[0].now);
    PathKeeps(s, inv, ANYTHING, ws, steps);
  }

  ghost predicate FirstSound(s: Settings, saved: map<nat, Event>, w: World) {
    BothSound(s, false, saved, w) && FirstInCycleZero(w.log)
  }

  ghost predicate FirstInCycleZero(log: seq<Attempt>) {
    forall i | 0 <= i < |log| && Count(log[..i], log[i].key.id, false) == 0 :: log[i].cycle == 0
  }

  lemma AttemptFirst(s: Settings, w: World, w': World, move: Move)
    requires Sound(s, w, false) && FirstInCycleZero(w.log) && Moves(s, w, w', move) && !move.Wait?
    ensures FirstInCycleZero(w'.log)
  {
    var e := w.rows[move.id];
    assert Booked(s, w, move.id, false) && w'.log[..|w.log|] == w.log;
    if Count(w.log, move.id, false) == 0 {
      NoNegativeCycles(e.backoffCycles, Period(s));
      assert e.retries == 0 && e.retriesInCycle == 0;
    }
    forall i | 0 <= i < |w.log| ensures w'.log[..i] == w.log[..i] {
    }
  }

  lemma AfterFirstFailure(s: Settings, ws: seq<World>, steps: seq<Step>, i: nat, j: nat)
    requires Run(s, ws, steps) && Patient(s, ws[|steps|].log)
    requires s.backoffDelay >= 0 || PermitsAll(NO_ABORTS, steps)
    requires i < j < |ws[|steps|].log|
    requires var log := ws[|steps|].log; Failure(log[i], log[j].key.id) && Count(log[..i], log[i].key.id, false) == 0
    ensures var log := ws[|steps|].log; log[j].started >= log[i].finished + log[j].cycle * s.backoffDelay
  {
    BackoffTiming(s, ws, steps, i, j);
    FirstFailure(s, ws, steps, i);
  }

  // ---------- what a 429 asks for ----------

  /** The time from which on a 429 lets the event be sent again. */
  function AskedFor(s: Settings, a: Attempt): int {
    match a.reply
    case TooManyRequests(Some(seconds)) => a.finished + seconds
    case TooManyRequests(None) => a.finished + s.backoffDelay
    case _ => a.finished
  }

  ghost predicate Respected(s: Settings, w: World) {
    && (forall a | a in w.log :: a.key in w.arrived)
    && (forall i, j | 0 <= i < j < |w.log| && w.log[i].key.id == w.log[j].key.id && w.log[i].reply.TooManyRequests? ::
          w.log[j].started >= AskedFor(s, w.log[i]))
    && (forall a | a in w.log && a.reply.TooManyRequests? && a.key.id in w.rows && !Terminal(w.rows[a.key.id]) ::
          var h := w.rows[a.key.id].handleAt;
          w.now >= AskedFor(s, a) || (h.Some? && h.value >= AskedFor(s, a)))
  }

  lemma AttemptRespected(s: Settings, w: World, w': World, move: Move)
    requires Respected(s, w) && Arrived(w) && Moves(s, w, w', move) && !move.Wait?
    ensures Respected(s, w')
  {
    var n, b := |w.log|, w'.log[|w.log|];
    assert b.key in w.arrived && b.key.id == move.id;
    forall i | 0 <= i < n && w.log[i].key.id == move.id && w.log[i].reply.TooManyRequests?
      ensures b.started >= AskedFor(s, w.log[i])
    {
      assert w.log[i] in w.log;
    }
    forall a | a in w'.log && a.reply.TooManyRequests? && a.key.id in w'.rows && !Terminal(w'.rows[a.key.id])
      ensures var h := w'.rows[a.key.id].handleAt;
              w'.now >= AskedFor(s, a) || (h.Some? && h.value >= AskedFor(s, a))
    {
      if a != b {
        assert a in w.log;
      }
    }
  }

  lemma OutsideRespected(s: Settings, w: World, w': World, step: Step)
    requires Respected(s, w) && Next(s, w, w', step) && Outside(step)
    ensures Respected(s, w')
  {
    if step.Arrive? {
      forall a | a in w.log ensures a.key in w'.arrived && a.key.id != step.id {
        assert a.key in w.arrived;
      }
    }
  }

  /** In runs in which no call is cut off, an attempt that follows a 429 for the same event begins no earlier than the
      seconds it named, or the configured delay if it named none, after it ended. */
  lemma AskedWaits(s: Settings, ws: seq<World>, steps: seq<Step>, i: nat, j: nat)
    requires Run(s, ws, steps) && PermitsAll(NO_ABORTS, steps) && i < j < |ws[|steps|].log|
    requires ws[|steps|].log[i].key.id == ws[|steps|].log[j].key.id
    ensures var a, b := ws[|steps|].log[i], ws[|steps|].log[j];
            match a.reply
            case TooManyRequests(Some(n)) => b.started >= a.finished + n
            case TooManyRequests(None) => b.started >= a.finished + s.backoffDelay
            case _ => true
  {
    ghost var inv := (saved: map<nat, Event>, w: World) => Respected(s, w) && Arrived(w);
    forall saved, w: World, w': World, move | inv(saved, w) && Moves(s, w, w', move) ensures inv(saved, w') {
      if !move.Wait? {
        AttemptRespected(s, w, w', move);
      }
    }
    forall w: World, w': World, step | inv(w.rows, w) && Next(s, w, w', step) && Outside(step)
      ensures inv(w'.rows, w')
    {
      OutsideRespected(s, w, w', step);
      OutsideArrived(s, w, w', step);
    }
    PathKeeps(s, inv, NO_ABORTS, ws, steps);
  }

  /** Every 429 kept the event from being sent again for as long as it asked. */
  ghost predicate AsksKept(s: Settings, w: World) {
    forall i, j | 0 <= i < j < |w.log| && w.log[i].key.id == w.log[j].key.id ::
      match w.log[i].reply
      case TooManyRequests(Some(n)) => w.log[j].started >= w.log[i].finished + n
      case TooManyRequests(None) => w.log[j].started >= w.log[i].finished + s.backoffDelay
      case _ => true
  }

  /** What a 429 asks for is kept in every run exactly if no call is cut off: what undoes the call undoes the wait. */
  lemma AsksKeptExactlyWhen(s: Settings, aborts: bool)
    ensures (forall w | Reachable(s, Scope(true, aborts), w) :: AsksKept(s, w)) <==> !aborts
  {
    if aborts {
      var w := WaitUndone(s);
    } else {
      forall w | Reachable(s, NO_ABORTS, w) ensures AsksKept(s, w) {
        var ws: seq<World>, steps: seq<Step> :| Run(s, ws, steps) && PermitsAll(NO_ABORTS, steps) && ws[|steps|] == w;
        forall i, j | 0 <= i < j < |w.log| && w.log[i].key.id == w.log[j].key.id
          ensures match w.log[i].reply
                  case TooManyRequests(Some(n)) => w.log[j].started >= w.log[i].finished + n
                  case TooManyRequests(None) => w.log[j].started >= w.log[i].finished + s.backoffDelay
                  case _ => true
        {
          AskedWaits(s, ws, steps, i, j);
        }
      }
    }
  }

  lemma WaitUndone(s: Settings) returns (w: World)
    ensures Reachable(s, ANYTHING, w) && !AsksKept(s, w)
  {
    var once := OneArrived(s, ANYTHING);
    var asked := Miss(s, once, 0, 0, TooManyRequests(Some(1)), 0);
    var cut := Call([], Missed(0, TooManyRequests(Some(1)), 0));
    var undone := asked.(rows := once.rows);
    w := Deliver(s, undone, 0, 0);
    OnlyInQueue(s, once);
    OnlyInQueue(s, undone);
    SentOne(s, undone);
    assert CutOff(s, once, asked, cut);
    OneMoreStep(s, ANYTHING, once, undone, Abort(cut));
    OneMoreStep(s, ANYTHING, undone, w, Send(None, Call([0], Exhausted), false, 1));
    assert w.log[0].key.id == w.log[1].key.id && w.log[1].started < w.log[0].finished + 1;
  }
}
