/** Whether delivery is guaranteed, and how often: which settings never give an event up, and what calls that
    are cut off cost. */
module EventPromise {
  import opened Basics
  import opened Events
  import opened EventRuns
  import opened EventLedger

  /** Every event that arrived was delivered or is still going to be attempted. */
  ghost predicate NothingGivenUp(w: World) {
    forall k | k in w.arrived :: Count(w.log, k.id, true) >= 1 || (k.id in w.rows && !Terminal(w.rows[k.id]))
  }

  ghost predicate NothingTwice(w: World) {
    forall k | k in w.arrived :: Count(w.log, k.id, true) <= 1
  }

  ghost predicate Reachable(s: Settings, scope: Scope, w: World) {
    exists ws: seq<World>, steps: seq<Step> ::
      Run(s, ws, steps) && PermitsAll(scope, steps) && ws[|steps|] == w
  }

  lemma OneMoreStep(s: Settings, scope: Scope, w: World, w': World, step: Step)
    requires Reachable(s, scope, w) && Next(s, w, w', step) && Permits(scope, step)
    ensures Reachable(s, scope, w')
  {
    var ws: seq<World>, steps: seq<Step> :| Run(s, ws, steps) && PermitsAll(scope, steps) && ws[|steps|] == w;
    var ws', steps' := ws + [w'], steps + [step];
    forall i | 0 <= i < |steps'| ensures Next(s, ws'[i], ws'[i + 1], steps'[i]) {
      if i < |steps| {
        assert Next(s, ws[i], ws[i + 1], steps[i]);
      }
    }
    assert Run(s, ws', steps') && ws'[|steps'|] == w';
  }

  /** A world with a single event, which has failed so many times and was never delivered. */
  ghost predicate FailedOnly(s: Settings, w: World, retries: nat) {
    && w.rows.Keys == {0} && w.arrived == [Key(0, 0)] && w.rows[0].pointInTime == 0
    && w.rows[0].retries == retries && Count(w.log, 0, true) == 0
    && w.rows[0].state == if retries == 0 then New
                          else if s.retryMax > 0 && retries > s.retryMax then Failed else Retry
  }

  lemma OneArrived(s: Settings, scope: Scope) returns (w: World)
    requires scope.arrivals
    ensures Reachable(s, scope, w) && FailedOnly(s, w, 0) && w.rows[0].handleAt == None && w.log == [] && w.now == 0
  {
    var start := World(map[], 0, [], []);
    assert Run(s, [start], []) && [start][0] == start;
    assert Reachable(s, scope, start);
    w := World(map[0 := Event(0, New, 0, 0, 0, None)], 0, [], [Key(0, 0)]);
    OneMoreStep(s, scope, start, w, Arrive(0, 0));
  }

  /** An endpoint that only ever refuses is a possible run. */
  lemma {:induction false} RefusedAgain(s: Settings, retries: nat) returns (w: World)
    requires s.retryMax > 0 && retries <= s.retryMax + 1
    ensures Reachable(s, NO_ABORTS, w) && FailedOnly(s, w, retries)
  {
    if retries == 0 {
      w := OneArrived(s, NO_ABORTS);
    } else {
      var before := RefusedAgain(s, retries - 1);
      w := RefuseOnce(s, before, retries - 1);
    }
  }

  lemma RefuseOnce(s: Settings, before: World, retries: nat) returns (w: World)
    requires s.retryMax > 0 && retries <= s.retryMax && Reachable(s, NO_ABORTS, before)
             && FailedOnly(s, before, retries)
    ensures Reachable(s, NO_ABORTS, w) && FailedOnly(s, w, retries + 1)
  {
    var e := before.rows[0];
    var t := if e.handleAt.Some? && e.handleAt.value > before.now then e.handleAt.value else before.now;
    w := Miss(s, before, 0, t, Refused, t);
    OneMoreFailure(s, before, retries, t);
    RefusedCall(s, before, t);
    OneMoreStep(s, NO_ABORTS, before, w, Send(None, Call([], Missed(t, Refused, t)), false, 1));
  }

  lemma RefusedCall(s: Settings, w: World, t: int)
    requires w.rows.Keys == {0} && !Terminal(w.rows[0]) && Due(w.rows[0], t) && w.now <= t
    ensures Next(s, w, Miss(s, w, 0, t, Refused, t), Send(None, Call([], Missed(t, Refused, t)), false, 1))
  {
    OnlyInQueue(s, w);
  }

  lemma OneMoreFailure(s: Settings, before: World, retries: nat, t: int)
    requires s.retryMax > 0 && retries <= s.retryMax && FailedOnly(s, before, retries)
    ensures FailedOnly(s, Miss(s, before, 0, t, Refused, t), retries + 1)
  {
    CountMore(before.log, Miss(s, before, 0, t, Refused, t).log[|before.log|], 0, true);
  }

  lemma OnlyInQueue(s: Settings, w: World)
    requires w.rows.Keys == {0} && !Terminal(w.rows[0])
    ensures Queue(s, w.rows) == [0] && Sent(s, w, []) == w
  {
    var q := Queue(s, w.rows);
    QueueMeaning(s, w.rows);
    assert Pending(w.rows) == {0};
    assert q[0] in q && q[..0] == [];
    NoDeliveries(s, w);
  }

  /** In every run, cut off calls included, every event is delivered or still pending, exactly if the number of
      retries is not limited; with a limit, an endpoint that refuses often enough makes the consumer give up. */
  lemma GuaranteedExactlyWhen(s: Settings)
    ensures (forall w | Reachable(s, ANYTHING, w) :: NothingGivenUp(w)) <==> s.retryMax <= 0
  {
    if s.retryMax <= 0 {
      forall w | Reachable(s, ANYTHING, w) ensures NothingGivenUp(w) {
        var ws: seq<World>, steps: seq<Step> :| Run(s, ws, steps) && ws[|steps|] == w;
        RunSound(s, ws, steps, false);
        assert forall id | id in w.rows :: Booked(s, w, id, false);
      }
    } else {
      var w := RefusedAgain(s, s.retryMax + 1);
      assert Reachable(s, ANYTHING, w) by {
        var ws: seq<World>, steps: seq<Step> :| Run(s, ws, steps) && ws[|steps|] == w;
      }
      assert Key(0, 0) in w.arrived && 0 in w.rows && Terminal(w.rows[0]);
    }
  }

  /** A call that is cut off after its request was answered leads to a second delivery. */
  lemma DeliveredTwice(s: Settings) returns (w: World)
    ensures Reachable(s, ANYTHING, w) && !NothingTwice(w)
  {
    var once := OneArrived(s, ANYTHING);
    var hit := Deliver(s, once, 0, 0);
    var undone := hit.(rows := once.rows);
    w := Deliver(s, undone, 0, 0);
    OnlyInQueue(s, once);
    OnlyInQueue(s, undone);
    SentOne(s, once);
    SentOne(s, undone);
    assert CutOff(s, once, hit, Call([0], Exhausted));
    OneMoreStep(s, ANYTHING, once, undone, Abort(Call([0], Exhausted)));
    OneMoreStep(s, ANYTHING, undone, w, Send(None, Call([0], Exhausted), false, 1));
    CountMore(once.log, hit.log[0], 0, true);
    CountMore(undone.log, w.log[1], 0, true);
    assert Key(0, 0) in w.arrived;
  }

  lemma SentOne(s: Settings, w: World)
    requires Queue(s, w.rows) == [0] && 0 in w.rows && Sent(s, w, []) == w
    ensures Sent(s, w, [0]) == Deliver(s, w, 0, 0)
  {
    assert [0][..0] == [];
    SentOneMore(s, w, [0]);
  }

  /** No event is ever delivered twice in any run exactly if no call is cut off. */
  lemma OnceExactlyWhen(s: Settings, aborts: bool)
    ensures (forall w | Reachable(s, Scope(true, aborts), w) :: NothingTwice(w)) <==> !aborts
  {
    if aborts {
      var w := DeliveredTwice(s);
    } else {
      forall w | Reachable(s, NO_ABORTS, w) ensures NothingTwice(w) {
        var ws: seq<World>, steps: seq<Step> :| Run(s, ws, steps) && PermitsAll(NO_ABORTS, steps) && ws[|steps|] == w;
        RunSound(s, ws, steps, true);
        assert forall id | id in w.rows :: Booked(s, w, id, true);
      }
    }
  }

  // ---------- how often, with calls that are cut off ----------

  /** A call that is cut off after it delivered the event. */
  ghost predicate UndoesDelivery(s: Settings, w: World, step: Step, id: nat) {
    step.Abort? && |step.call.times| <= |Queue(s, w.rows)| && id in Queue(s, w.rows)[..|step.call.times|]
  }

  ghost function UndoneDeliveries(s: Settings, ws: seq<World>, steps: seq<Step>, id: nat): nat
    requires Path(s, ws, steps)
  {
    CountSteps(s, (w, step) => UndoesDelivery(s, w, step, id), ws, steps)
  }

  lemma {:induction false} SentCounts(s: Settings, w: World, times: seq<int>, id: nat)
    requires |times| <= |Queue(s, w.rows)|
    ensures Count(Sent(s, w, times).log, id, true) ==
            Count(w.log, id, true) + if id in Queue(s, w.rows)[..|times|] then 1 else 0
    decreases |times|
  {
    if times == [] {
      assert Queue(s, w.rows)[..0] == [];
      NoDeliveries(s, w);
    } else {
      var n, q := |times| - 1, Queue(s, w.rows);
      var before := Sent(s, w, times[..n]);
      SentCounts(s, w, times[..n], id);
      SentOneMore(s, w, times);
      CountMore(before.log, Sent(s, w, times).log[|before.log|], id, true);
      assert q[..n + 1] == q[..n] + [q[n]] && q[n] !in q[..n];
    }
  }

  /** Stopping adds no delivery. */
  lemma StopCounts(s: Settings, w: World, w': World, q: seq<nat>, room: Option<nat>, call: Call, count: nat, id: nat)
    requires Within(q, w.rows) && StopsAt(s, w, w', q, room, call, count)
    ensures Count(w'.log, id, true) == Count(w.log, id, true)
    ensures id in w.rows ==> id in w'.rows && (w'.rows[id].state == Success ==> w.rows[id].state == Success)
    ensures id in w.rows && w.rows[id].state == Success && id !in q[|call.times|..] ==> w'.rows[id] == w.rows[id]
  {
    if call.stop.Missed? {
      CountMore(w.log, w'.log[|w.log|], id, true);
    }
  }

  /** The deliveries of an event are the ones that were undone and, once it is SUCCESS, one more. */
  ghost predicate Tallied(w: World, id: nat, undone: nat) {
    var hits := Count(w.log, id, true);
    if id in w.rows then hits == undone + if w.rows[id].state == Success then 1 else 0
    else undone <= hits <= undone + 1
  }

  lemma SendTallied(s: Settings, w: World, w': World, step: Step, id: nat, undone: nat)
    requires Tallied(w, id, undone) && Next(s, w, w', step) && step.Send?
    ensures Tallied(w', id, undone)
  {
    var q, call := Queue(s, w.rows), step.call;
    QueueMeaning(s, w.rows);
    SentCounts(s, w, call.times, id);
    StopCounts(s, Sent(s, w, call.times), w', q, step.room, call, step.count, id);
    if id in q[|call.times|..] {
      var i :| |call.times| <= i < |q| && q[i] == id;
      assert id !in q[..|call.times|];
    }
  }

  lemma AbortTallied(s: Settings, w: World, w': World, step: Step, id: nat, undone: nat)
    requires Tallied(w, id, undone) && Next(s, w, w', step) && step.Abort?
    ensures Tallied(w', id, undone + if UndoesDelivery(s, w, step, id) then 1 else 0)
  {
    var q, call := Queue(s, w.rows), step.call;
    QueueMeaning(s, w.rows);
    var reached :| CutOff(s, w, reached, call) && w' == reached.(rows := w.rows);
    SentCounts(s, w, call.times, id);
    if call.stop.Missed? {
      StopCounts(s, Sent(s, w, call.times), reached, q, None, call, |call.times| + 1, id);
    }
    if id in q[..|call.times|] {
      assert id in q;
    }
  }

  lemma ArrivalTallied(s: Settings, w: World, w': World, step: Step, id: nat, undone: nat)
    requires Sound(s, w, false) && Tallied(w, id, undone) && Next(s, w, w', step) && step.Arrive?
    ensures Tallied(w', id, undone)
  {
    if id == step.id {
      assert forall a | a in w.log :: a.key.id != id;
      CountNone(w.log, id, true);
    }
  }

  lemma StepTallied(s: Settings, w: World, w': World, step: Step, id: nat, undone: nat)
    requires Sound(s, w, false) && Tallied(w, id, undone) && Next(s, w, w', step)
    ensures Tallied(w', id, undone + if UndoesDelivery(s, w, step, id) then 1 else 0)
  {
    match step {
      case Send(_, _, _, _) => SendTallied(s, w, w', step, id, undone);
      case Abort(_) => AbortTallied(s, w, w', step, id, undone);
      case Arrive(_, _) => ArrivalTallied(s, w, w', step, id, undone);
      case _ =>
    }
  }

  lemma {:induction false} RunTallied(s: Settings, ws: seq<World>, steps: seq<Step>, id: nat)
    requires Run(s, ws, steps)
    ensures Tallied(ws[|steps|], id, UndoneDeliveries(s, ws, steps, id))
    decreases |steps|
  {
    if steps != [] {
      var n := |steps| - 1;
      PathPrefix(s, ws, steps);
      RunTallied(s, ws[..n + 1], steps[..n], id);
      RunSound(s, ws[..n + 1], steps[..n], false);
      StepTallied(s, ws[n], ws[n + 1], steps[n], id, UndoneDeliveries(s, ws[..n + 1], steps[..n], id));
    }
  }

  /** In every run an event is delivered at most once more than calls that had delivered it were cut off, and a
      stored event exactly as often as that, and once more if it is SUCCESS. */
  lemma OncePerUndoneCall(s: Settings, ws: seq<World>, steps: seq<Step>, id: nat)
    requires Run(s, ws, steps)
    ensures var w, undone := ws[|steps|], UndoneDeliveries(s, ws, steps, id);
            && undone <= Count(w.log, id, true) <= undone + 1
            && (id in w.rows ==> (Count(w.log, id, true) == undone + 1 <==> w.rows[id].state == Success))
  {
    RunTallied(s, ws, steps, id);
  }
}
