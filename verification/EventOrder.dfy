/** The order in which events are attempted and delivered. */
module EventOrder {
  import opened Events
  import opened EventRuns
  import opened EventLedger

  ghost predicate Gone(w: World, id: nat) {
    id in w.rows ==> Terminal(w.rows[id])
  }

  /** What an attempt leaves behind: everything that had arrived by the start of its call and comes before it is done
      with. */
  ghost predicate Passed(w: World, a: Attempt) {
    && a.seen <= |w.arrived| && a.key in w.arrived[..a.seen]
    && forall i | 0 <= i < a.seen
       && (KeyBefore(w.arrived[i], a.key) || (w.arrived[i] == a.key && a.reply.Delivered?)) :: Gone(w, w.arrived[i].id)
  }

  /** Of two attempts, the later one is for a later event, or a retry, or for an event that had not
      arrived when the call of the earlier one began. */
  ghost predicate InTurn(w: World, a: Attempt, b: Attempt) {
    || KeyBefore(a.key, b.key)
    || (a.key == b.key && !a.reply.Delivered?)
    || (a.seen <= |w.arrived| && b.key !in w.arrived[..a.seen])
  }

  ghost predicate Arrived(w: World) {
    && (forall id | id in w.rows :: KeyOf(w.rows, id) in w.arrived)
    && (forall k | k in w.arrived && k.id in w.rows :: KeyOf(w.rows, k.id) == k)
  }

  ghost predicate Ordered(w: World) {
    && Arrived(w)
    && (forall i | 0 <= i < |w.log| :: Passed(w, w.log[i]))
    && (forall i, j | 0 <= i < j < |w.log| :: InTurn(w, w.log[i], w.log[j]))
  }

  lemma PendingComeLater(s: Settings, w: World, id: nat)
    requires s.mode == InOrder && Head(s, w, id)
    ensures forall x | x in w.rows && !Terminal(w.rows[x]) :: x == id || KeyBefore(KeyOf(w.rows, id), KeyOf(w.rows, x))
  {
    assert forall x | x in w.rows && !Terminal(w.rows[x]) && x != id ::
           x in Pending(w.rows) && Before(s.mode, w.rows, id, x);
  }

  /** What is passed stays passed. */
  lemma StillPassed(w: World, w': World, a: Attempt)
    requires Arrived(w) && Passed(w, a) && w.arrived <= w'.arrived
    requires forall k | k in w.arrived && Gone(w, k.id) :: Gone(w', k.id)
    ensures Passed(w', a)
  {
    assert w'.arrived[..a.seen] == w.arrived[..a.seen];
    forall i | 0 <= i < a.seen && Gone(w, w.arrived[i].id) ensures Gone(w', w'.arrived[i].id) {
      assert w.arrived[i] in w.arrived;
    }
  }

  /** A new attempt is for the first pending event. */
  lemma NewPassed(s: Settings, w: World, w': World, move: Move)
    requires s.mode == InOrder && Arrived(w) && Moves(s, w, w', move) && !move.Wait?
    ensures Passed(w', w'.log[|w.log|])
  {
    var b := w'.log[|w.log|];
    assert w'.arrived[..b.seen] == w.arrived;
    PendingComeLater(s, w, move.id);
    forall i | 0 <= i < b.seen && (KeyBefore(w.arrived[i], b.key) || (w.arrived[i] == b.key && b.reply.Delivered?))
      ensures Gone(w', w.arrived[i].id)
    {
      assert w.arrived[i] in w.arrived;
    }
  }

  /** An attempt made after another one is in turn, because what the other one passed is no longer pending. */
  lemma NewInTurn(s: Settings, w: World, w': World, move: Move, a: Attempt)
    requires Arrived(w) && Moves(s, w, w', move) && !move.Wait? && Passed(w, a)
    ensures InTurn(w', a, w'.log[|w.log|])
  {
  }

  lemma AttemptOrdered(s: Settings, w: World, w': World, move: Move)
    requires s.mode == InOrder && Ordered(w) && Moves(s, w, w', move) && !move.Wait?
    ensures Ordered(w')
  {
    NewPassed(s, w, w', move);
    forall i | 0 <= i < |w.log| ensures Passed(w', w'.log[i]) && InTurn(w', w.log[i], w'.log[|w.log|]) {
      StillPassed(w, w', w.log[i]);
      NewInTurn(s, w, w', move, w.log[i]);
    }
    forall i, j | 0 <= i < j < |w'.log| ensures InTurn(w', w'.log[i], w'.log[j]) {
      assert j < |w.log| ==> InTurn(w, w.log[i], w.log[j]);
    }
  }

  lemma WaitOrdered(w: World, to: int)
    requires Ordered(w)
    ensures Ordered(w.(now := to))
  {
    var w' := w.(now := to);
    forall i | 0 <= i < |w.log| ensures Passed(w', w.log[i]) {
      StillPassed(w, w', w.log[i]);
    }
    forall i, j | 0 <= i < j < |w.log| ensures InTurn(w', w.log[i], w.log[j]) {
      assert InTurn(w, w.log[i], w.log[j]);
    }
  }

  lemma OutsideOrdered(s: Settings, w: World, w': World, step: Step)
    requires Ordered(w) && Next(s, w, w', step) && Outside(step)
    ensures Ordered(w')
  {
    if step.Arrive? {
      assert w'.arrived[|w.arrived|] == Key(step.pointInTime, step.id);
    }
    forall i | 0 <= i < |w.log| ensures Passed(w', w'.log[i]) {
      StillPassed(w, w', w.log[i]);
    }
    forall i, j | 0 <= i < j < |w.log| ensures InTurn(w', w.log[i], w.log[j]) {
      assert InTurn(w, w.log[i], w.log[j]) && Passed(w, w.log[i]);
      assert w'.arrived[..w.log[i].seen] == w.arrived[..w.log[i].seen];
    }
  }

  /** In-order delivery. After any run of an in-order consumer in which no call was cut off, an attempt for an
      earlier event follows one for a later event only if the earlier event had not arrived when the call of the other
      began, and no attempt follows a delivery of the same event. */
  lemma InOrderRuns(s: Settings, ws: seq<World>, steps: seq<Step>)
    requires Run(s, ws, steps) && PermitsAll(NO_ABORTS, steps) && s.mode == InOrder
    ensures Ordered(ws[|steps|])
  {
    ghost var inv := (saved: map<nat, Event>, w: World) => Ordered(w);
    forall saved, w: World, w': World, move | inv(saved, w) && Moves(s, w, w', move) ensures inv(saved, w') {
      if move.Wait? {
        WaitOrdered(w, move.to);
      } else {
        AttemptOrdered(s, w, w', move);
      }
    }
    forall w: World, w': World, step | inv(w.rows, w) && Next(s, w, w', step) && Outside(step)
      ensures inv(w'.rows, w')
    {
      OutsideOrdered(s, w, w', step);
    }
    PathKeeps(s, inv, NO_ABORTS, ws, steps);
  }

  ghost predicate KeysAscend(keys: seq<Key>) {
    forall i, j | 0 <= i < j < |keys| :: KeyBefore(keys[i], keys[j])
  }

  /** If the events arrive in key order, the attempts are made in key order too, and the deliveries strictly so. */
  lemma DeliveriesAscend(s: Settings, ws: seq<World>, steps: seq<Step>, i: nat, j: nat)
    requires Run(s, ws, steps) && PermitsAll(NO_ABORTS, steps) && s.mode == InOrder
    requires KeysAscend(ws[|steps|].arrived)
    requires i < j < |ws[|steps|].log|
    ensures var log := ws[|steps|].log;
            if log[i].reply.Delivered? then KeyBefore(log[i].key, log[j].key)
            else log[i].key == log[j].key || KeyBefore(log[i].key, log[j].key)
  {
    InOrderRuns(s, ws, steps);
    var w := ws[|steps|];
    var a, b := w.log[i], w.log[j];
    assert InTurn(w, a, b) && Passed(w, a) && Passed(w, b);
    var m :| 0 <= m < a.seen && w.arrived[..a.seen][m] == a.key;
    var n :| 0 <= n < b.seen && w.arrived[..b.seen][n] == b.key;
    assert n < a.seen ==> w.arrived[..a.seen][n] == b.key;
  }

  /** The same in terms of points in time and ids: for arrivals that ascend by point in time and then id, so do the
      deliveries, each event once. */
  lemma DeliveredByTime(s: Settings, ws: seq<World>, steps: seq<Step>, i: nat, j: nat)
    requires Run(s, ws, steps) && PermitsAll(NO_ABORTS, steps) && s.mode == InOrder
    requires forall m, n | 0 <= m < n < |ws[|steps|].arrived| ::
               var a, b := ws[|steps|].arrived[m], ws[|steps|].arrived[n];
               a.pointInTime < b.pointInTime || (a.pointInTime == b.pointInTime && a.id < b.id)
    requires i < j < |ws[|steps|].log| && ws[|steps|].log[i].reply == Delivered
    ensures var a, b := ws[|steps|].log[i].key, ws[|steps|].log[j].key;
            a.pointInTime < b.pointInTime || (a.pointInTime == b.pointInTime && a.id < b.id)
  {
    DeliveriesAscend(s, ws, steps, i, j);
  }

  /** Whatever order the events arrive in: an attempt for an event that comes before an attempted one by point in time
      and id is made later only if it had not arrived when the call of that one began. */
  lemma AttemptedByTime(s: Settings, ws: seq<World>, steps: seq<Step>, i: nat, j: nat)
    requires Run(s, ws, steps) && PermitsAll(NO_ABORTS, steps) && s.mode == InOrder && i < j < |ws[|steps|].log|
    ensures var w := ws[|steps|];
            var a, b := w.log[i].key, w.log[j].key;
            var before := b.pointInTime < a.pointInTime || (b.pointInTime == a.pointInTime && b.id < a.id);
            && w.log[i].seen <= |w.arrived|
            && (before ==> b !in w.arrived[..w.log[i].seen])
            && (w.log[i].reply == Delivered ==> b != a)
  {
    InOrderRuns(s, ws, steps);
    assert InTurn(ws[|steps|], ws[|steps|].log[i], ws[|steps|].log[j]) && Passed(ws[|steps|], ws[|steps|].log[i]);
  }

  // ---------- without a limit on retries ----------

  /** The keys delivered, in order. */
  function Deliveries(log: seq<Attempt>): seq<Key> {
    if log == [] then []
    else
      var last := log[|log| - 1];
      Deliveries(log[..|log| - 1]) + if last.reply.Delivered? then [last.key] else []
  }

  /** The delivered events are the ones that arrived first, and the rest are still pending. */
  ghost predicate Prefix(w: World) {
    var n := |Deliveries(w.log)|;
    && n <= |w.arrived| && Deliveries(w.log) == w.arrived[..n]
    && (forall i | 0 <= i < n :: Gone(w, w.arrived[i].id))
    && (forall i | n <= i < |w.arrived| :: w.arrived[i].id in w.rows && !Terminal(w.rows[w.arrived[i].id]))
  }

  /** The first pending event is the first one not delivered yet. */
  lemma HeadIsNext(s: Settings, w: World, id: nat)
    requires s.mode == InOrder && Arrived(w) && KeysAscend(w.arrived) && Prefix(w) && Head(s, w, id)
    ensures var n := |Deliveries(w.log)|; n < |w.arrived| && w.arrived[n] == KeyOf(w.rows, id)
  {
    var n := |Deliveries(w.log)|;
    PendingComeLater(s, w, id);
    var m :| 0 <= m < |w.arrived| && w.arrived[m] == KeyOf(w.rows, id);
    assert n <= m;
    assert w.arrived[n] in w.arrived && KeyOf(w.rows, w.arrived[n].id) == w.arrived[n];
    assert n < m ==> KeyBefore(w.arrived[n], w.arrived[m]);
  }

  /** A delivery extends the prefix by the next event, a failure leaves it as it is. */
  lemma DeliveriesAfter(s: Settings, w: World, w': World, move: Move)
    requires Moves(s, w, w', move) && !move.Wait?
    ensures move.id in w.rows
    ensures Deliveries(w'.log) == Deliveries(w.log) + if move.Hit? then [KeyOf(w.rows, move.id)] else []
  {
    assert w'.log[..|w.log|] == w.log;
  }

  lemma HitPrefix(s: Settings, w: World, w': World, move: Move)
    requires s.mode == InOrder && s.retryMax <= 0 && Arrived(w) && KeysAscend(w.arrived) && Prefix(w)
    requires Moves(s, w, w', move) && !move.Wait?
    ensures Prefix(w')
  {
    var n, id := |Deliveries(w.log)|, move.id;
    HeadIsNext(s, w, id);
    DeliveriesAfter(s, w, w', move);
    forall i | 0 <= i < |w.arrived| && i != n ensures w.arrived[i].id != id {
      OthersDiffer(w, n, i);
    }
    if move.Hit? {
      assert w.arrived[..n + 1] == w.arrived[..n] + [w.arrived[n]];
    }
  }

  lemma OthersDiffer(w: World, n: nat, i: nat)
    requires Arrived(w) && KeysAscend(w.arrived) && n < |w.arrived| && i < |w.arrived| && i != n
             && w.arrived[n].id in w.rows
    ensures w.arrived[i].id != w.arrived[n].id
  {
  }

  lemma AttemptPrefix(s: Settings, w: World, w': World, move: Move)
    requires s.mode == InOrder && s.retryMax <= 0 && Arrived(w) && (KeysAscend(w.arrived) ==> Prefix(w))
    requires Moves(s, w, w', move) && !move.Wait?
    ensures Arrived(w') && (KeysAscend(w'.arrived) ==> Prefix(w'))
  {
    if KeysAscend(w.arrived) {
      HitPrefix(s, w, w', move);
    }
  }

  /** With unlimited retries and arrivals in key order, what an in-order consumer has delivered is always
      a prefix of what arrived. */
  lemma DeliveredPrefix(s: Settings, ws: seq<World>, steps: seq<Step>)
    requires Run(s, ws, steps) && PermitsAll(NO_ABORTS, steps) && s.mode == InOrder && s.retryMax <= 0
    requires KeysAscend(ws[|steps|].arrived)
    ensures Prefix(ws[|steps|])
  {
    ghost var inv := (saved: map<nat, Event>, w: World) => Arrived(w) && (KeysAscend(w.arrived) ==> Prefix(w));
    forall saved, w: World, w': World, move | inv(saved, w) && Moves(s, w, w', move) ensures inv(saved, w') {
      if !move.Wait? {
        AttemptPrefix(s, w, w', move);
      }
    }
    forall w: World, w': World, step | inv(w.rows, w) && Next(s, w, w', step) && Outside(step)
      ensures inv(w'.rows, w')
    {
      OutsidePrefix(s, w, w', step);
    }
    PathKeeps(s, inv, NO_ABORTS, ws, steps);
  }

  lemma OutsidePrefix(s: Settings, w: World, w': World, step: Step)
    requires Arrived(w) && (KeysAscend(w.arrived) ==> Prefix(w)) && Next(s, w, w', step) && Outside(step)
    ensures Arrived(w') && (KeysAscend(w'.arrived) ==> Prefix(w'))
  {
    OutsideArrived(s, w, w', step);
    if KeysAscend(w'.arrived) {
      assert forall i | 0 <= i < |w.arrived| :: w'.arrived[i] == w.arrived[i];
      if step.Arrive? {
        ArrivalPrefix(s, w, w', step);
      }
    }
  }

  lemma ArrivalPrefix(s: Settings, w: World, w': World, step: Step)
    requires Prefix(w) && Next(s, w, w', step) && step.Arrive?
    ensures Prefix(w')
  {
  }

  lemma OutsideArrived(s: Settings, w: World, w': World, step: Step)
    requires Arrived(w) && Next(s, w, w', step) && Outside(step)
    ensures Arrived(w')
  {
  }

  // ---------- with calls that are cut off ----------

  /** Each attempt was made when everything that had arrived by the start of its call and comes before it had been
      delivered, or had failed more often than retry_max allows. */
  ghost predicate Preceded(s: Settings, w: World) {
    forall i, m | 0 <= i < |w.log| && 0 <= m < w.log[i].seen && m < |w.arrived|
        && KeyBefore(w.arrived[m], w.log[i].key) ::
      Settled(s, w.log[..i], w.arrived[m].id, false)
  }

  ghost predicate SeenArrived(w: World) {
    forall i | 0 <= i < |w.log| :: w.log[i].seen <= |w.arrived|
  }

  lemma AttemptPreceded(s: Settings, w: World, w': World, move: Move)
    requires s.mode == InOrder && Sound(s, w, false) && Preceded(s, w) && SeenArrived(w)
    requires Moves(s, w, w', move) && !move.Wait?
    ensures Preceded(s, w') && SeenArrived(w')
  {
    var n, b := |w.log|, w'.log[|w.log|];
    assert w'.log[..n] == w.log;
    PendingComeLater(s, w, move.id);
    forall m | 0 <= m < |w.arrived| && KeyBefore(w.arrived[m], b.key)
      ensures Settled(s, w.log, w.arrived[m].id, false)
    {
      var k := w.arrived[m];
      assert k in w.arrived;
      if k.id in w.rows {
        assert Booked(s, w, k.id, false);
      }
    }
    forall i | 0 <= i < n ensures w'.log[..i] == w.log[..i] {
    }
  }

  ghost predicate PrecededSound(s: Settings, saved: map<nat, Event>, w: World) {
    BothSound(s, false, saved, w) && Preceded(s, w) && SeenArrived(w)
  }

  lemma MovePreceded(s: Settings, saved: map<nat, Event>, w: World, w': World, move: Move)
    requires s.mode == InOrder && PrecededSound(s, saved, w) && Moves(s, w, w', move)
    ensures PrecededSound(s, saved, w')
  {
    MoveSound(s, false, saved, w, w', move);
    if !move.Wait? {
      AttemptPreceded(s, w, w', move);
    }
  }

  lemma OutsidePreceded(s: Settings, w: World, w': World, step: Step)
    requires PrecededSound(s, w.rows, w) && Next(s, w, w', step) && Outside(step)
    ensures PrecededSound(s, w'.rows, w')
  {
    OutsideSound(s, false, w, w', step);
    assert forall j | 0 <= j < |w.arrived| :: w'.arrived[j] == w.arrived[j];
  }

  /** In order, also with calls that are cut off: an event of an in-order consumer is attempted only after every
      event that had arrived by the start of the call and comes before it was delivered, or failed more often than
      retry_max allows, in every run. */
  lemma EarlierComeFirst(s: Settings, ws: seq<World>, steps: seq<Step>, i: nat, m: nat)
    requires Run(s, ws, steps) && s.mode == InOrder
    requires i < |ws[|steps|].log| && m < ws[|steps|].log[i].seen
    ensures var w := ws[|steps|];
            && m < |w.arrived|
            && (KeyBefore(w.arrived[m], w.log[i].key) ==> Settled(s, w.log[..i], w.arrived[m].id, false))
  {
    ghost var inv := (saved: map<nat, Event>, w: World) => PrecededSound(s, saved, w);
    forall saved, w: World, w': World, move | inv(saved, w) && Moves(s, w, w', move) ensures inv(saved, w') {
      MovePreceded(s, saved, w, w', move);
    }
    forall w: World, w': World, step | inv(w.rows, w) && Next(s, w, w', step) && Outside(step)
      ensures inv(w'.rows, w')
    {
      OutsidePreceded(s, w, w', step);
    }
    forall saved, w: World, saved', w': World | inv(saved, w) && Ends(ANYTHING, saved, w, saved', w')
      ensures inv(saved', w')
    {
      EndsSound(s, false, saved, w, saved', w');
    }
    StartSound(s, false, ws[0].now);
    PathKeeps(s, inv, ANYTHING, ws, steps);
  }

  lemma SoundArrived(s: Settings, w: World)
    requires Sound(s, w, false)
    ensures Arrived(w)
  {
    assert forall id | id in w.rows :: Booked(s, w, id, false);
  }

  /** Whenever an in-order call, committed or cut off, attempts an event, what it sees of every event that had arrived
      by its start and comes before is a settled row, or no row any more. */
  lemma EarlierAreDone(s: Settings, ws: seq<World>, steps: seq<Step>, k: nat, n: nat, m: nat)
    requires Run(s, ws, steps) && s.mode == InOrder && k < |steps| && (steps[k].Send? || steps[k].Abort?)
    requires n <= |steps[k].call.times| && n < |Queue(s, ws[k].rows)| && m < |ws[k].arrived|
    requires Queue(s, ws[k].rows)[n] in ws[k].rows
    requires KeyBefore(ws[k].arrived[m], KeyOf(ws[k].rows, Queue(s, ws[k].rows)[n]))
    ensures Gone(Sent(s, ws[k], steps[k].call.times[..n]), ws[k].arrived[m].id)
  {
    var w, times := ws[k], steps[k].call.times[..n];
    assert Run(s, ws[..k + 1], steps[..k]) by {
      assert forall i | 0 <= i < k :: Next(s, ws[i], ws[i + 1], steps[i]);
    }
    RunSound(s, ws[..k + 1], steps[..k], false);
    SoundArrived(s, w);
    var sent := Sent(s, w, times);
    NextIsHead(s, w, times);
    PendingComeLater(s, sent, Queue(s, w.rows)[n]);
    assert w.arrived[m] in w.arrived;
  }

  // ---------- without a limit on retries, with calls that are cut off ----------

  /** What is done with arrived before what is not. */
  ghost predicate DoneFirst(w: World) {
    forall i, j | 0 <= i < j < |w.arrived| && Gone(w, w.arrived[j].id) :: Gone(w, w.arrived[i].id)
  }

  ghost predicate BothDoneFirst(s: Settings, saved: map<nat, Event>, w: World) {
    && BothSound(s, false, saved, w)
    && (KeysAscend(w.arrived) ==> DoneFirst(w) && DoneFirst(w.(rows := saved)))
  }

  lemma AttemptDoneFirst(s: Settings, w: World, w': World, move: Move)
    requires s.mode == InOrder && s.retryMax <= 0 && Arrived(w) && KeysAscend(w.arrived) && DoneFirst(w)
    requires Moves(s, w, w', move) && !move.Wait?
    ensures DoneFirst(w')
  {
    PendingComeLater(s, w, move.id);
    forall i, j | 0 <= i < j < |w'.arrived| && Gone(w', w'.arrived[j].id) ensures Gone(w', w'.arrived[i].id) {
      assert w.arrived[i] in w.arrived && w.arrived[j] in w.arrived;
      assert KeyBefore(w.arrived[i], w.arrived[j]);
      if w.arrived[j].id != move.id {
        assert Gone(w, w.arrived[j].id);
      }
    }
  }

  lemma MoveDoneFirst(s: Settings, saved: map<nat, Event>, w: World, w': World, move: Move)
    requires s.mode == InOrder && s.retryMax <= 0 && BothDoneFirst(s, saved, w) && Moves(s, w, w', move)
    ensures BothDoneFirst(s, saved, w')
  {
    MoveSound(s, false, saved, w, w', move);
    if KeysAscend(w.arrived) {
      if !move.Wait? {
        SoundArrived(s, w);
        AttemptDoneFirst(s, w, w', move);
      } else {
        SameDoneFirst(w, w');
      }
      SameDoneFirst(w.(rows := saved), w'.(rows := saved));
    }
  }

  lemma SameDoneFirst(w: World, w': World)
    requires w'.arrived == w.arrived && forall id :: Gone(w', id) <==> Gone(w, id)
    ensures DoneFirst(w) <==> DoneFirst(w')
  {
  }

  lemma OutsideDoneFirst(s: Settings, w: World, w': World, step: Step)
    requires BothDoneFirst(s, w.rows, w) && Next(s, w, w', step) && Outside(step)
    ensures BothDoneFirst(s, w'.rows, w')
  {
    OutsideSound(s, false, w, w', step);
    assert w'.(rows := w'.rows) == w' && w.(rows := w.rows) == w;
    if KeysAscend(w'.arrived) {
      if step.Arrive? {
        ArrivalDoneFirst(s, w, w', step);
      } else {
        SameDoneFirst(w, w');
      }
    }
  }

  lemma ArrivalDoneFirst(s: Settings, w: World, w': World, step: Step)
    requires (KeysAscend(w.arrived) ==> DoneFirst(w)) && KeysAscend(w'.arrived)
    requires Next(s, w, w', step) && step.Arrive?
    ensures DoneFirst(w')
  {
    assert forall i | 0 <= i < |w.arrived| :: w'.arrived[i] == w.arrived[i] && w.arrived[i] in w.arrived;
    forall i, j | 0 <= i < j < |w'.arrived| && Gone(w', w'.arrived[j].id) ensures Gone(w', w'.arrived[i].id) {
      assert j < |w.arrived| && Gone(w, w.arrived[j].id);
      assert Gone(w, w.arrived[i].id);
    }
  }

  /** With unlimited retries and arrivals in key order, the events an in-order consumer is done with are the first ones
      that arrived, and all of them were delivered, in every run, whatever calls are cut off. */
  lemma DonePrefix(s: Settings, ws: seq<World>, steps: seq<Step>) returns (n: nat)
    requires Run(s, ws, steps) && s.mode == InOrder && s.retryMax <= 0 && KeysAscend(ws[|steps|].arrived)
    ensures var w := ws[|steps|];
            && n <= |w.arrived|
            && (forall i | 0 <= i < n :: Gone(w, w.arrived[i].id) && Count(w.log, w.arrived[i].id, true) >= 1)
            && (forall i | n <= i < |w.arrived| :: !Gone(w, w.arrived[i].id))
  {
    ghost var inv := (saved: map<nat, Event>, w: World) => BothDoneFirst(s, saved, w);
    forall saved, w: World, w': World, move | inv(saved, w) && Moves(s, w, w', move) ensures inv(saved, w') {
      MoveDoneFirst(s, saved, w, w', move);
    }
    forall w: World, w': World, step | inv(w.rows, w) && Next(s, w, w', step) && Outside(step)
      ensures inv(w'.rows, w')
    {
      OutsideDoneFirst(s, w, w', step);
    }
    forall saved, w: World, saved', w': World | inv(saved, w) && Ends(ANYTHING, saved, w, saved', w')
      ensures inv(saved', w')
    {
      EndsSound(s, false, saved, w, saved', w');
      assert w.(rows := w.rows) == w && w.(rows := saved).(rows := saved) == w.(rows := saved);
    }
    StartSound(s, false, ws[0].now);
    PathKeeps(s, inv, ANYTHING, ws, steps);
    n := DoneUpTo(s, ws[|steps|]);
  }

  lemma DoneUpTo(s: Settings, w: World) returns (n: nat)
    requires Sound(s, w, false) && s.retryMax <= 0 && DoneFirst(w)
    ensures n <= |w.arrived|
    ensures forall i | 0 <= i < n :: Gone(w, w.arrived[i].id) && Count(w.log, w.arrived[i].id, true) >= 1
    ensures forall i | n <= i < |w.arrived| :: !Gone(w, w.arrived[i].id)
  {
    n := 0;
    while n < |w.arrived| && Gone(w, w.arrived[n].id)
      invariant n <= |w.arrived| && forall i | 0 <= i < n :: Gone(w, w.arrived[i].id)
    {
      n := n + 1;
    }
    forall i | 0 <= i < n ensures Count(w.log, w.arrived[i].id, true) >= 1 {
      DoneIsDelivered(s, w, w.arrived[i]);
    }
  }

  lemma DoneIsDelivered(s: Settings, w: World, k: Key)
    requires Sound(s, w, false) && s.retryMax <= 0 && k in w.arrived && Gone(w, k.id)
    ensures Count(w.log, k.id, true) >= 1
  {
    if k.id in w.rows {
      assert Booked(s, w, k.id, false);
    }
  }
}
