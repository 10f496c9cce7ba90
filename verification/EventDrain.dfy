/** Progress: pending events run out of retries, and take turns at them. */
module EventDrain {
  import opened Basics
  import opened Events
  import opened EventRuns
  import opened EventLedger

  /** How many more failures a pending event can take, and the one that ends it. */
  function Left(s: Settings, e: Event): int {
    s.retryMax + 1 - e.retries
  }

  ghost function Sum(s: Settings, rows: map<nat, Event>, ids: set<nat>): int
    requires ids <= rows.Keys
    decreases |ids|
  {
    if ids == {} then 0
    else
      var x :| x in ids;
      Left(s, rows[x]) + Sum(s, rows, ids - {x})
  }

  ghost function Potential(s: Settings, w: World): int {
    Sum(s, w.rows, Pending(w.rows))
  }

  lemma {:induction false} SumWithout(s: Settings, rows: map<nat, Event>, ids: set<nat>, x: nat)
    requires ids <= rows.Keys && x in ids
    ensures Sum(s, rows, ids) == Left(s, rows[x]) + Sum(s, rows, ids - {x})
    decreases |ids|
  {
    var y :| y in ids && Sum(s, rows, ids) == Left(s, rows[y]) + Sum(s, rows, ids - {y});
    if y != x {
      SumWithout(s, rows, ids - {y}, x);
      SumWithout(s, rows, ids - {x}, y);
      assert ids - {y} - {x} == ids - {x} - {y};
    }
  }

  lemma {:induction false} SumSame(s: Settings, rows: map<nat, Event>, rows': map<nat, Event>, ids: set<nat>)
    requires ids <= rows.Keys && ids <= rows'.Keys && forall x | x in ids :: rows'[x] == rows[x]
    ensures Sum(s, rows', ids) == Sum(s, rows, ids)
    decreases |ids|
  {
    if ids != {} {
      var x :| x in ids;
      SumSame(s, rows, rows', ids - {x});
      SumWithout(s, rows, ids, x);
      SumWithout(s, rows', ids, x);
    }
  }

  /** Each pending event counts for at least one and at most retry_max + 1. */
  lemma {:induction false} SumBounds(s: Settings, rows: map<nat, Event>, ids: set<nat>)
    requires ids <= rows.Keys && forall x | x in ids :: 1 <= Left(s, rows[x])
    ensures |ids| <= Sum(s, rows, ids) <= |ids| * (s.retryMax + 1)
    decreases |ids|
  {
    if ids != {} {
      var x :| x in ids;
      SumBounds(s, rows, ids - {x});
      SumWithout(s, rows, ids, x);
      assert |ids| * (s.retryMax + 1) == (|ids| - 1) * (s.retryMax + 1) + (s.retryMax + 1);
    }
  }

  /** Pending events have attempts left. */
  ghost predicate Live(s: Settings, w: World) {
    forall id | id in w.rows && !Terminal(w.rows[id]) :: RowOk(s, w.rows[id])
  }

  lemma AttemptCosts(s: Settings, w: World, w': World, move: Move)
    requires s.retryMax > 0 && Live(s, w) && Moves(s, w, w', move) && !move.Wait?
    ensures Live(s, w') && |w'.log| == |w.log| + 1 && Potential(s, w') <= Potential(s, w) - 1
  {
    var id, pending := move.id, Pending(w.rows);
    AttemptLive(s, w, w', move);
    SumWithout(s, w.rows, pending, id);
    SumSame(s, w.rows, w'.rows, pending - {id});
    PendingAfter(s, w, w', move);
    if !Terminal(w'.rows[id]) {
      SumWithout(s, w'.rows, pending, id);
    }
  }

  lemma PendingAfter(s: Settings, w: World, w': World, move: Move)
    requires Moves(s, w, w', move) && !move.Wait?
    ensures move.id in w'.rows && move.id in Pending(w.rows)
    ensures Pending(w'.rows) == if Terminal(w'.rows[move.id]) then Pending(w.rows) - {move.id} else Pending(w.rows)
  {
  }

  lemma AttemptLive(s: Settings, w: World, w': World, move: Move)
    requires Live(s, w) && Moves(s, w, w', move) && !move.Wait?
    ensures Live(s, w')
  {
    AttemptKeepsRowOk(s, w.rows[move.id], if move.Fault? then move.reply else Refused,
                      if move.Fault? then move.finished else 0);
  }

  /** Every attempt of a call that completes uses up some of the potential. */
  lemma CallCosts(s: Settings, w: World, w': World, step: Step)
    requires s.retryMax > 0 && Live(s, w) && Next(s, w, w', step) && step.Send?
    ensures Live(s, w') && Potential(s, w') + |w'.log| <= Potential(s, w) + |w.log|
  {
    var total := Potential(s, w) + |w.log|;
    ghost var inv := (saved: map<nat, Event>, x: World) => Live(s, x) && Potential(s, x) + |x.log| <= total;
    forall saved, x: World, x': World, move | inv(saved, x) && Moves(s, x, x', move) ensures inv(saved, x') {
      if !move.Wait? {
        AttemptCosts(s, x, x', move);
      }
    }
    forall x: World, x': World, other | inv(x.rows, x) && Next(s, x, x', other) && other.Clean?
      ensures inv(x'.rows, x')
    {
      CleanCostsNothing(s, x, x', other);
    }
    SendKeeps(s, inv, Scope(false, false), w, w', step);
  }

  lemma CleanCostsNothing(s: Settings, w: World, w': World, step: Step)
    requires Live(s, w) && Next(s, w, w', step) && step.Clean?
    ensures Live(s, w') && Potential(s, w') == Potential(s, w)
  {
    assert Pending(w'.rows) == Pending(w.rows);
    SumSame(s, w.rows, w'.rows, Pending(w.rows));
  }

  /** A call that has room for an event and finds its first pending event due. */
  ghost predicate Productive(s: Settings, w: World, step: Step) {
    && step.Send? && step.room != Some(0)
    && Queue(s, w.rows) != [] && Due(w.rows[Queue(s, w.rows)[0]], w.now)
  }

  /** The sum over the pending events falls in every productive call and never rises without arrivals. */
  lemma StepCosts(s: Settings, w: World, w': World, step: Step)
    requires s.retryMax > 0 && Live(s, w) && Next(s, w, w', step) && !step.Arrive?
    ensures Live(s, w') && Potential(s, w') <= Potential(s, w) - if Productive(s, w, step) then 1 else 0
  {
    match step
    case Send(_, _, _, _) =>
      CallCosts(s, w, w', step);
    case Clean(_) =>
      CleanCostsNothing(s, w, w', step);
    case _ =>
  }

  lemma ProductiveCallCosts(s: Settings, w: World, w': World, step: Step)
    requires s.retryMax > 0 && Sound(s, w, false) && Next(s, w, w', step) && Productive(s, w, step)
    ensures Potential(s, w') < Potential(s, w)
  {
    assert forall id | id in w.rows :: Booked(s, w, id, false);
    StepCosts(s, w, w', step);
  }

  ghost function ProductiveCalls(s: Settings, ws: seq<World>, steps: seq<Step>): nat
    requires Path(s, ws, steps)
  {
    CountSteps(s, (w, step) => Productive(s, w, step), ws, steps)
  }

  lemma {:induction false} PathCosts(s: Settings, ws: seq<World>, steps: seq<Step>)
    requires s.retryMax > 0 && Path(s, ws, steps) && Live(s, ws[0]) && PermitsAll(NO_ARRIVALS, steps)
    ensures Live(s, ws[|steps|])
    ensures ProductiveCalls(s, ws, steps) + Potential(s, ws[|steps|]) <= Potential(s, ws[0])
    decreases |steps|
  {
    if steps != [] {
      var n := |steps| - 1;
      PathPrefix(s, ws, steps);
      assert steps[n] in steps && forall step | step in steps[..n] :: step in steps;
      PathCosts(s, ws[..n + 1], steps[..n]);
      StepCosts(s, ws[n], ws[n + 1], steps[n]);
    }
  }

  /** N pending events are gone after at most N * (retry_max + 1) productive calls, if no more arrive. Calls that
      are cut off change nothing and count for nothing. */
  lemma Drains(s: Settings, ws: seq<World>, steps: seq<Step>)
    requires s.retryMax > 0 && Path(s, ws, steps) && Sound(s, ws[0], false) && PermitsAll(NO_ARRIVALS, steps)
    ensures var most := |Pending(ws[0].rows)| * (s.retryMax + 1);
            && ProductiveCalls(s, ws, steps) + |Pending(ws[|steps|].rows)| <= most
            && (ProductiveCalls(s, ws, steps) == most ==> Pending(ws[|steps|].rows) == {})
  {
    assert forall id | id in ws[0].rows :: Booked(s, ws[0], id, false);
    PathCosts(s, ws, steps);
    SumBounds(s, ws[0].rows, Pending(ws[0].rows));
    SumBounds(s, ws[|steps|].rows, Pending(ws[|steps|].rows));
  }

  // ---------- an endpoint that answers well ----------

  /** A productive call in which no attempt fails. */
  ghost predicate Welcome(s: Settings, w: World, step: Step) {
    Productive(s, w, step) && !step.call.stop.Missed?
  }

  ghost function WelcomeCalls(s: Settings, ws: seq<World>, steps: seq<Step>): nat
    requires Path(s, ws, steps)
  {
    CountSteps(s, (w, step) => Welcome(s, w, step), ws, steps)
  }

  lemma NoneJoin(s: Settings, w: World, w': World, step: Step)
    requires Next(s, w, w', step) && !step.Arrive?
    ensures Pending(w'.rows) <= Pending(w.rows)
  {
    if step.Send? {
      QueueMeaning(s, w.rows);
    }
  }

  lemma HeadLeaves(s: Settings, w: World, w': World, step: Step)
    requires Next(s, w, w', step) && Welcome(s, w, step)
    ensures var head := Queue(s, w.rows)[0]; head in Pending(w.rows) && head !in Pending(w'.rows)
  {
    QueueMeaning(s, w.rows);
    var q := Queue(s, w.rows);
    assert q[0] == q[..|step.call.times|][0];
  }

  /** Pending events only ever leave, and one leaves with every call that is welcome. */
  lemma PendingLeave(s: Settings, w: World, w': World, step: Step)
    requires Next(s, w, w', step) && !step.Arrive?
    ensures |Pending(w'.rows)| + (if Welcome(s, w, step) then 1 else 0) <= |Pending(w.rows)|
  {
    NoneJoin(s, w, w', step);
    if Welcome(s, w, step) {
      HeadLeaves(s, w, w', step);
      SubsetSize(Pending(w'.rows), Pending(w.rows) - {Queue(s, w.rows)[0]});
    } else {
      SubsetSize(Pending(w'.rows), Pending(w.rows));
    }
  }

  /** However many retries are allowed: N pending events are gone after at most N productive calls in which no attempt
      fails, if no more arrive. */
  lemma {:induction false} WelcomeDrains(s: Settings, ws: seq<World>, steps: seq<Step>)
    requires Path(s, ws, steps) && PermitsAll(NO_ARRIVALS, steps)
    ensures WelcomeCalls(s, ws, steps) + |Pending(ws[|steps|].rows)| <= |Pending(ws[0].rows)|
    ensures WelcomeCalls(s, ws, steps) == |Pending(ws[0].rows)| ==> Pending(ws[|steps|].rows) == {}
    decreases |steps|
  {
    if steps != [] {
      var n := |steps| - 1;
      PathPrefix(s, ws, steps);
      assert steps[n] in steps && forall step | step in steps[..n] :: step in steps;
      WelcomeDrains(s, ws[..n + 1], steps[..n]);
      PendingLeave(s, ws[n], ws[n + 1], steps[n]);
    }
  }

  // ---------- taking turns ----------

  /** When an event is attempted, every pending event that came before it at the start of the call has been
      delivered. */
  lemma CallOrder(s: Settings, w: World, times: seq<int>, x: nat)
    requires |times| < |Queue(s, w.rows)| && x in Pending(w.rows)
    requires Queue(s, w.rows)[|times|] in w.rows && Before(s.mode, w.rows, x, Queue(s, w.rows)[|times|])
    ensures x in Sent(s, w, times).rows && Sent(s, w, times).rows[x].state == Success
  {
    var q, n := Queue(s, w.rows), |times|;
    QueueMeaning(s, w.rows);
    var j :| 0 <= j < |q| && q[j] == x;
    assert forall i | 0 <= i < n :: q[..n][i] == q[i] && q[i] in q[..n];
  }

  ghost predicate Even(w: World) {
    forall a, b | a in Pending(w.rows) && b in Pending(w.rows) :: w.rows[a].retries <= w.rows[b].retries + 1
  }

  /** Round robin: of the events a non-blocking consumer starts with, none is ever two failures ahead of another. */
  lemma RoundRobin(s: Settings, ws: seq<World>, steps: seq<Step>)
    requires s.mode == InOrderNonBlocking && Path(s, ws, steps) && PermitsAll(NO_ARRIVALS, steps)
    requires Sound(s, ws[0], false) && forall id | id in Pending(ws[0].rows) :: ws[0].rows[id].state == New
    ensures Even(ws[|steps|])
  {
    ghost var inv := (saved: map<nat, Event>, w: World) => Even(w) && Even(w.(rows := saved));
    assert forall id | id in ws[0].rows :: Booked(s, ws[0], id, false);
    assert ws[0].(rows := ws[0].rows) == ws[0];
    forall saved, w: World, w': World, move | inv(saved, w) && Moves(s, w, w', move) ensures inv(saved, w') {
      AttemptEven(s, w, w', move);
      assert Even(w'.(rows := saved));
    }
    forall w: World, w': World, step | inv(w.rows, w) && Next(s, w, w', step) && step.Clean? ensures inv(w'.rows, w') {
      assert forall x | x in Pending(w'.rows) :: x in Pending(w.rows);
      assert w'.(rows := w'.rows) == w';
    }
    PathKeeps(s, inv, NO_ARRIVALS, ws, steps);
  }

  lemma AttemptEven(s: Settings, w: World, w': World, move: Move)
    requires s.mode == InOrderNonBlocking && Even(w) && Moves(s, w, w', move)
    ensures Even(w')
  {
    assert forall x | x in Pending(w'.rows) :: x in Pending(w.rows);
    if !move.Wait? {
      assert forall x | x in Pending(w.rows) && x != move.id :: Before(s.mode, w.rows, move.id, x);
    }
  }
}
