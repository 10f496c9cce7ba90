/** Everything that can happen to the event table of a consumer whose settings stay the same, as runs of
    whole steps, and how to prove something of every run by looking at one event at a time. */
module EventRuns {
  import opened Basics
  import opened Events

  /** A call runs in one transaction. If it is cut off, its changes to the table are undone, but the requests
      it made stay made. Clean-up removes old rows: all there are, unless a call that settles more of them is under
      way (see EventOverlaps). */
  datatype Step =
    | Arrive(id: nat, pointInTime: int)
    | Tick(to: int)
    | Send(room: Option<nat>, call: Call, more: bool, count: nat)
    | Abort(call: Call)
    | Clean(gone: set<nat>)

  /** The world the deliveries of a call lead to. */
  function Sent(s: Settings, w: World, times: seq<int>): World
    requires |times| <= |Queue(s, w.rows)|
  {
    DeliverAll(s, w, Queue(s, w.rows)[..|times|], times)
  }

  /** How far a call had got when it was cut off: some deliveries, and perhaps one attempt that failed. */
  ghost predicate CutOff(s: Settings, w: World, reached: World, call: Call) {
    var q, d := Queue(s, w.rows), |call.times|;
    && d <= |q|
    && Delivering(s, w, Sent(s, w, call.times), q, call.times)
    && if call.stop.Missed? then StopsAt(s, Sent(s, w, call.times), reached, q, None, call, d + 1)
       else reached == Sent(s, w, call.times)
  }

  ghost predicate Next(s: Settings, w: World, w': World, step: Step) {
    match step
    case Arrive(id, pointInTime) =>
      && (forall k | k in w.arrived :: k.id < id)
      && w' == w.(rows := w.rows[id := Event(pointInTime, New, 0, 0, 0, None)],
                  arrived := w.arrived + [Key(pointInTime, id)])
    case Tick(to) => to >= w.now && w' == w.(now := to)
    case Send(room, call, more, count) =>
      && |call.times| <= |Queue(s, w.rows)|
      && IsCall(s, w, Sent(s, w, call.times), w', room, call, more, count)
    case Abort(call) => exists reached :: CutOff(s, w, reached, call) && w' == reached.(rows := w.rows)
    case Clean(gone) => gone <= OldIds(w) && w' == w.(rows := w.rows - gone)
  }

  ghost predicate Path(s: Settings, ws: seq<World>, steps: seq<Step>) {
    |ws| == |steps| + 1 && forall i | 0 <= i < |steps| :: Next(s, ws[i], ws[i + 1], steps[i])
  }

  /** A path from an empty table. */
  ghost predicate Run(s: Settings, ws: seq<World>, steps: seq<Step>) {
    Path(s, ws, steps) && ws[0] == World(map[], ws[0].now, [], [])
  }

  /** Whether new events may arrive, and whether calls may be cut off. */
  datatype Scope = Scope(arrivals: bool, aborts: bool)

  const ANYTHING := Scope(true, true)
  const NO_ABORTS := Scope(true, false)
  const NO_ARRIVALS := Scope(false, true)

  predicate Permits(scope: Scope, step: Step) {
    (step.Arrive? ==> scope.arrivals) && (step.Abort? ==> scope.aborts)
  }

  predicate PermitsAll(scope: Scope, steps: seq<Step>) {
    forall step | step in steps :: Permits(scope, step)
  }

  lemma PathPrefix(s: Settings, ws: seq<World>, steps: seq<Step>)
    requires Path(s, ws, steps) && steps != []
    ensures Path(s, ws[..|steps|], steps[..|steps| - 1])
  {
    assert forall i | 0 <= i < |steps| :: Next(s, ws[i], ws[i + 1], steps[i]);
  }

  /** How many steps of a path are of some kind. */
  ghost function CountSteps(s: Settings, kind: (World, Step) -> bool, ws: seq<World>, steps: seq<Step>): nat
    requires Path(s, ws, steps)
    decreases |steps|
  {
    if steps == [] then 0
    else
      var n := |steps| - 1;
      PathPrefix(s, ws, steps);
      CountSteps(s, kind, ws[..n + 1], steps[..n]) + if kind(ws[n], steps[n]) then 1 else 0
  }

  // ---------- one event at a time ----------

  /** The pending event that comes first. */
  predicate Head(s: Settings, w: World, id: nat) {
    IsLeast(s.mode, w.rows, Pending(w.rows), id)
  }

  /** Inside a call: time passes, a delivery, or a failed attempt. */
  datatype Move =
    | Wait(to: int)
    | Hit(id: nat, started: int)
    | Fault(id: nat, started: int, reply: Reply, finished: int)

  /** A sending call only ever attempts the event that is first among those it found that are still pending. What
      arrives meanwhile counts as arriving after the call. */
  ghost predicate Moves(s: Settings, w: World, w': World, move: Move) {
    match move
    case Wait(to) => to >= w.now && w' == w.(now := to)
    case Hit(id, started) =>
      Head(s, w, id) && Due(w.rows[id], started) && w.now <= started && w' == Deliver(s, w, id, started)
    case Fault(id, started, reply, finished) =>
      && Head(s, w, id) && Due(w.rows[id], started) && w.now <= started <= finished && reply != Delivered
      && w' == Miss(s, w, id, started, reply, finished)
  }

  predicate Outside(step: Step) {
    step.Arrive? || step.Clean?
  }

  /** A call ends by committing its rows or, where calls may be cut off, by going back to the committed ones. */
  predicate Ends(scope: Scope, saved: map<nat, Event>, w: World, saved': map<nat, Event>, w': World) {
    || (saved' == w.rows && w' == w)
    || (scope.aborts && saved' == saved && w' == w.(rows := saved))
  }

  /** A property of the committed rows and the world in the middle of a call, kept by every move, by what
      happens between calls, and by every end of a call. */
  ghost predicate Inductive(s: Settings, inv: (map<nat, Event>, World) -> bool, scope: Scope) {
    && (forall saved, w: World, w': World, move | inv(saved, w) && Moves(s, w, w', move) :: inv(saved, w'))
    && (forall w: World, w': World, step |
          inv(w.rows, w) && Next(s, w, w', step) && Outside(step) && Permits(scope, step) :: inv(w'.rows, w'))
    && (forall saved, w: World, saved', w': World | inv(saved, w) && Ends(scope, saved, w, saved', w') ::
          inv(saved', w'))
  }

  lemma NoDeliveries(s: Settings, w: World)
    ensures DeliverAll(s, w, [], []) == w
  {
  }

  /** The events in a queue are the pending ones, in order. */
  lemma QueueMeaning(s: Settings, rows: map<nat, Event>)
    ensures var q := Queue(s, rows);
            && |q| == |Pending(rows)|
            && (forall id :: id in q <==> id in Pending(rows))
            && (forall i | 0 <= i < |q| :: q[i] in rows && !Terminal(rows[q[i]]))
            && (forall i, j | 0 <= i < j < |q| :: Before(s.mode, rows, q[i], q[j]))
  {
    SortedInOrder(s.mode, rows, Pending(rows));
  }

  /** Once the first few events of its queue are delivered, the next one comes first. */
  lemma NextIsHead(s: Settings, w: World, times: seq<int>)
    requires |times| < |Queue(s, w.rows)|
    ensures var q, sent := Queue(s, w.rows), Sent(s, w, times);
            q[|times|] in w.rows && Head(s, sent, q[|times|]) && sent.rows[q[|times|]] == w.rows[q[|times|]]
  {
    var q, n, sent := Queue(s, w.rows), |times|, Sent(s, w, times);
    QueueMeaning(s, w.rows);
    var id := q[n];
    assert id !in q[..n];
    forall x | x in Pending(sent.rows) && x != id ensures Before(s.mode, sent.rows, id, x) {
      assert x in w.rows && x !in q[..n] && x in q;
      var j :| 0 <= j < |q| && q[j] == x;
      assert forall i | 0 <= i < n :: q[..n][i] == q[i] && q[i] in q[..n];
    }
  }

  lemma SentOneMore(s: Settings, w: World, times: seq<int>)
    requires 0 < |times| <= |Queue(s, w.rows)|
    ensures var n := |times| - 1;
            var id := Queue(s, w.rows)[n];
            && id in Sent(s, w, times[..n]).rows
            && Sent(s, w, times) == Deliver(s, Sent(s, w, times[..n]), id, times[n])
  {
    var n, q := |times| - 1, Queue(s, w.rows);
    assert times == times[..n] + [times[n]];
    assert q[..n + 1] == q[..n] + [q[n]] && q[n] !in q[..n];
    DeliverOneMore(s, w, q[..n], times[..n], q[n], times[n]);
  }

  lemma {:induction false} SentKeeps(s: Settings, inv: (map<nat, Event>, World) -> bool, scope: Scope,
                                     w: World, times: seq<int>)
    requires Inductive(s, inv, scope) && inv(w.rows, w) && |times| <= |Queue(s, w.rows)|
    requires Ascending(times, w.now)
    requires forall i | 0 <= i < |times| :: Due(w.rows[Queue(s, w.rows)[i]], times[i])
    ensures inv(w.rows, Sent(s, w, times)) && Sent(s, w, times).now == LastTime(times, w.now)
    decreases |times|
  {
    if times == [] {
      assert Queue(s, w.rows)[..0] == [];
      NoDeliveries(s, w);
    } else {
      var n := |times| - 1;
      SentKeeps(s, inv, scope, w, times[..n]);
      NextIsHead(s, w, times[..n]);
      SentOneMore(s, w, times);
      assert Moves(s, Sent(s, w, times[..n]), Sent(s, w, times), Hit(Queue(s, w.rows)[n], times[n]));
    }
  }

  lemma StopKeeps(s: Settings, inv: (map<nat, Event>, World) -> bool, scope: Scope, w: World, w': World, call: Call,
                  room: Option<nat>, count: nat)
    requires Inductive(s, inv, scope) && |call.times| <= |Queue(s, w.rows)|
    requires inv(w.rows, Sent(s, w, call.times))
    requires StopsAt(s, Sent(s, w, call.times), w', Queue(s, w.rows), room, call, count)
    ensures inv(w.rows, w')
  {
    var q, n, sent := Queue(s, w.rows), |call.times|, Sent(s, w, call.times);
    match call.stop {
      case Exhausted =>
      case Full =>
      case NotDue(checked) =>
        assert Moves(s, sent, w', Wait(checked));
      case Missed(started, reply, finished) =>
        NextIsHead(s, w, call.times);
        assert Moves(s, sent, w', Fault(q[n], started, reply, finished));
    }
  }

  lemma SendKeeps(s: Settings, inv: (map<nat, Event>, World) -> bool, scope: Scope, w: World, w': World, step: Step)
    requires Inductive(s, inv, scope) && inv(w.rows, w) && Next(s, w, w', step) && step.Send?
    ensures inv(w'.rows, w')
  {
    SentKeeps(s, inv, scope, w, step.call.times);
    StopKeeps(s, inv, scope, w, w', step.call, step.room, step.count);
    assert Ends(scope, w.rows, w', w'.rows, w');
  }

  lemma AbortKeeps(s: Settings, inv: (map<nat, Event>, World) -> bool, scope: Scope, w: World, w': World, step: Step)
    requires Inductive(s, inv, scope) && scope.aborts && inv(w.rows, w) && Next(s, w, w', step) && step.Abort?
    ensures inv(w'.rows, w')
  {
    var reached :| CutOff(s, w, reached, step.call) && w' == reached.(rows := w.rows);
    SentKeeps(s, inv, scope, w, step.call.times);
    if step.call.stop.Missed? {
      StopKeeps(s, inv, scope, w, reached, step.call, None, |step.call.times| + 1);
    }
    assert Ends(scope, w.rows, reached, w.rows, w');
  }

  /** What every move keeps holds after any run. */
  lemma {:induction false} PathKeeps(s: Settings, inv: (map<nat, Event>, World) -> bool, scope: Scope,
                                     ws: seq<World>, steps: seq<Step>)
    requires Path(s, ws, steps) && PermitsAll(scope, steps)
    requires Inductive(s, inv, scope) && inv(ws[0].rows, ws[0])
    ensures inv(ws[|steps|].rows, ws[|steps|])
    decreases |steps|
  {
    if steps != [] {
      var n := |steps| - 1;
      PathPrefix(s, ws, steps);
      assert steps[n] in steps && forall step | step in steps[..n] :: step in steps;
      PathKeeps(s, inv, scope, ws[..n + 1], steps[..n]);
      match steps[n] {
        case Send(_, _, _, _) => SendKeeps(s, inv, scope, ws[n], ws[n + 1], steps[n]);
        case Abort(_) => AbortKeeps(s, inv, scope, ws[n], ws[n + 1], steps[n]);
        case Tick(to) => assert Moves(s, ws[n], ws[n + 1], Wait(to));
        case _ =>
      }
    }
  }

  // ---------- what one call does, field by field ----------

  /** Due again: after a 429 when the seconds it names are over, or the configured delay if it names none; after any
      other failure when the delay is over if the cycle is full, and as before if not. */
  lemma FailedAttempt(s: Settings, w: World, w': World, step: Step)
    requires Next(s, w, w', step) && step.Send? && step.call.stop.Missed?
    ensures |step.call.times| < |Queue(s, w.rows)|
    ensures var id, stop := Queue(s, w.rows)[|step.call.times|], step.call.stop;
            && id in w.rows && id in w'.rows && stop.reply != Delivered
            && var e, e', t := w.rows[id], w'.rows[id], stop.finished;
               var renewed := e.handleAt.Some? && e.retriesInCycle >= s.backoffEvery;
               && e'.retries == e.retries + 1
               && e'.backoffCycles == e.backoffCycles + (if renewed then 1 else 0)
               && e'.retriesInCycle == (if renewed then 0 else e.retriesInCycle) + 1
               && e'.state == (if s.retryMax > 0 && e'.retries > s.retryMax then Failed else Retry)
               && match stop.reply
                  case TooManyRequests(Some(n)) => forall x :: Due(e', x) <==> x >= t + n
                  case TooManyRequests(None) => forall x :: Due(e', x) <==> x >= t + s.backoffDelay
                  case _ =>
                    if e'.retriesInCycle >= s.backoffEvery then forall x :: Due(e', x) <==> x >= t + s.backoffDelay
                    else e'.handleAt == e.handleAt
  {
    var q, n := Queue(s, w.rows), |step.call.times|;
    QueueMeaning(s, w.rows);
    NextIsHead(s, w, step.call.times);
  }

  /** A call logs its deliveries in the order of its queue, each with what had arrived when the call began. */
  lemma CallLog(s: Settings, w: World, w': World, step: Step, n: nat)
    requires Next(s, w, w', step) && step.Send? && n < |step.call.times|
    ensures |step.call.times| <= |Queue(s, w.rows)| && |w.log| + n < |w'.log| && w.log <= w'.log
    ensures var id, a := Queue(s, w.rows)[n], w'.log[|w.log| + n];
            && id in w.rows && a.key == Key(w.rows[id].pointInTime, id) && a.reply == Delivered
            && a.started == a.finished == step.call.times[n] && a.seen == |w.arrived|
            && a.cycle == w.rows[id].backoffCycles + (if w.rows[id].handleAt.Some?
                                                         && w.rows[id].retriesInCycle >= s.backoffEvery then 1 else 0)
            && id in w'.rows && w'.rows[id].state == Success && w'.rows[id].retries == w.rows[id].retries
  {
    QueueMeaning(s, w.rows);
    assert Queue(s, w.rows)[..|step.call.times|][n] == Queue(s, w.rows)[n];
  }
}
