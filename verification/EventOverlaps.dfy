/** What other transactions do while a call is under way, and that it leads nowhere the runs do not lead. */
module EventOverlaps {
  import opened Basics
  import opened Events
  import opened EventRuns
  import opened EventLedger
  import opened EventOrder
  import opened EventPromise

  /** A call under way: the committed rows, the world as the call sees and changes it, and the times of its
      deliveries so far. */
  datatype Underway = Underway(saved: map<nat, Event>, world: World, times: seq<int>)

  /** The next delivery of the call, or another transaction: an event is inserted, old rows are cleaned up. */
  datatype Act =
    | Delivery(started: int)
    | Insert(id: nat, pointInTime: int)
    | Remove(at: int, gone: set<nat>)

  /** The call took its list of events when it began and logs how many events had arrived by then. */
  function AsFound(first: World, w: World): World {
    w.(arrived := first.arrived)
  }

  ghost predicate Acts(s: Settings, first: World, u: Underway, u': Underway, act: Act) {
    var q, n, w := Queue(s, first.rows), |u.times|, u.world;
    match act
    case Delivery(started) =>
      && n < |q| && q[n] in w.rows && Due(w.rows[q[n]], started) && w.now <= started
      && u' == Underway(u.saved, Deliver(s, AsFound(first, w), q[n], started).(arrived := w.arrived),
                        u.times + [started])
    case Insert(id, pointInTime) =>
      && (forall k | k in w.arrived :: k.id < id)
      && var e := Event(pointInTime, New, 0, 0, 0, None);
         u' == u.(saved := u.saved[id := e],
                  world := w.(rows := w.rows[id := e], arrived := w.arrived + [Key(pointInTime, id)]))
    case Remove(at, gone) =>
      && w.now <= at && gone <= OldIds(w.(rows := u.saved, now := at))
      && u' == u.(saved := u.saved - gone, world := w.(rows := w.rows - gone, now := at))
  }

  /** How the call ends, whatever else has happened meanwhile: it is committed, or its rows are undone. */
  ghost predicate Finishes(s: Settings, first: World, u: Underway, w': World, end: Step) {
    var q, w := Queue(s, first.rows), AsFound(first, u.world);
    && Within(q, w.rows)
    && match end
       case Send(room, call, more, count) =>
         && call.times == u.times && (room.Some? ==> |call.times| <= room.value) && more == call.stop.Full?
         && StopsAt(s, w, w'.(arrived := first.arrived), q, room, call, count) && w'.arrived == u.world.arrived
       case Abort(call) =>
         && call.times == u.times
         && exists reached ::
              && (if call.stop.Missed? then StopsAt(s, w, reached, q, None, call, |call.times| + 1) else reached == w)
              && w' == reached.(rows := u.saved, arrived := u.world.arrived)
       case _ => false
  }

  /** A step as before, or a call with everything that happens while it is under way. */
  datatype Stride = Plain(step: Step) | Busy(us: seq<Underway>, acts: seq<Act>, end: Step)

  ghost predicate Overlapped(s: Settings, w: World, us: seq<Underway>, acts: seq<Act>) {
    && |us| == |acts| + 1 && us[0] == Underway(w.rows, w, [])
    && forall i | 0 <= i < |acts| :: Acts(s, w, us[i], us[i + 1], acts[i])
  }

  ghost predicate Strides(s: Settings, w: World, w': World, stride: Stride) {
    match stride
    case Plain(step) => Next(s, w, w', step)
    case Busy(us, acts, end) => Overlapped(s, w, us, acts) && Finishes(s, w, us[|acts|], w', end)
  }

  /** What a stride needs runs to allow. */
  predicate Allows(scope: Scope, stride: Stride) {
    match stride
    case Plain(step) => Permits(scope, step)
    case Busy(_, acts, end) => Permits(scope, end) && ((exists act | act in acts :: act.Insert?) ==> scope.arrivals)
  }

  ghost predicate Course(s: Settings, scope: Scope, ws: seq<World>, strides: seq<Stride>) {
    && |ws| == |strides| + 1 && ws[0] == World(map[], ws[0].now, [], [])
    && (forall i | 0 <= i < |strides| :: Strides(s, ws[i], ws[i + 1], strides[i]) && Allows(scope, strides[i]))
  }

  // ---------- one call ----------

  function NewRows(inserted: seq<Key>): map<nat, Event> {
    if inserted == [] then map[]
    else
      var k := inserted[|inserted| - 1];
      NewRows(inserted[..|inserted| - 1])[k.id := Event(k.pointInTime, New, 0, 0, 0, None)]
  }

  lemma {:induction false} NewIds(inserted: seq<Key>, id: nat)
    ensures id in NewRows(inserted) <==> exists k :: k in inserted && k.id == id
    ensures id in NewRows(inserted) ==> !Terminal(NewRows(inserted)[id])
  {
    if inserted != [] {
      var n := |inserted| - 1;
      NewIds(inserted[..n], id);
      assert inserted == inserted[..n] + [inserted[n]];
    }
  }

  /** A world with rows added and removed, events arrived and time passed. */
  function Merged(w: World, inserted: seq<Key>, gone: set<nat>, now: int): World {
    World(w.rows + NewRows(inserted) - gone, now, w.log, w.arrived + inserted)
  }

  /** Every stored event has arrived. */
  ghost predicate Recorded(w: World) {
    forall id | id in w.rows :: exists k :: k in w.arrived && k.id == id
  }

  /** The inserted events are new, and the removed rows were old before the call. */
  ghost predicate Foreign(w: World, inserted: seq<Key>, gone: set<nat>, now: int) {
    && (forall i | 0 <= i < |inserted| :: forall k | k in w.arrived :: k.id < inserted[i].id)
    && (forall i, j | 0 <= i < j < |inserted| :: inserted[i].id < inserted[j].id)
    && gone <= OldIds(w.(now := now))
  }

  /** What the call has done and what the others have done do not touch. */
  ghost predicate Apart(s: Settings, first: World, u: Underway, inserted: seq<Key>, gone: set<nat>) {
    var q := Queue(s, first.rows);
    && |u.times| <= |q| && Delivering(s, first, Sent(s, first, u.times), q, u.times)
    && Foreign(first, inserted, gone, u.world.now)
    && Sent(s, first, u.times).now <= u.world.now
    && u.world == Merged(Sent(s, first, u.times), inserted, gone, u.world.now)
    && u.saved == Merged(first, inserted, gone, u.world.now).rows
  }

  /** A delivery and what the others did commute. */
  lemma DeliverApart(s: Settings, w: World, id: nat, started: int, inserted: seq<Key>, gone: set<nat>, now: int)
    requires id in w.rows && id !in NewRows(inserted) && id !in gone
    ensures var m := Merged(w, inserted, gone, now);
            && id in m.rows && m.rows[id] == w.rows[id]
            && Deliver(s, AsFound(w, m), id, started).(arrived := m.arrived)
               == Merged(Deliver(s, w, id, started), inserted, gone, started)
  {
  }

  /** So do a failed attempt and what the others did. */
  lemma MissApart(s: Settings, w: World, id: nat, started: int, reply: Reply, finished: int, inserted: seq<Key>,
                  gone: set<nat>, now: int)
    requires id in w.rows && id !in NewRows(inserted) && id !in gone
    ensures var m := Merged(w, inserted, gone, now);
            && id in m.rows && m.rows[id] == w.rows[id]
            && Miss(s, AsFound(w, m), id, started, reply, finished).(arrived := m.arrived)
               == Merged(Miss(s, w, id, started, reply, finished), inserted, gone, finished)
  {
  }

  /** The others leave the events the call found alone. */
  lemma FoundIsOwn(s: Settings, first: World, inserted: seq<Key>, gone: set<nat>, now: int, i: nat)
    requires Recorded(first) && Foreign(first, inserted, gone, now) && i < |Queue(s, first.rows)|
    ensures var id := Queue(s, first.rows)[i]; id !in NewRows(inserted) && id !in gone
  {
    var id := Queue(s, first.rows)[i];
    QueueMeaning(s, first.rows);
    NewIds(inserted, id);
    var k :| k in first.arrived && k.id == id;
  }

  lemma OneDeliveryMore(s: Settings, first: World, times: seq<int>, started: int)
    requires |times| < |Queue(s, first.rows)|
    requires Delivering(s, first, Sent(s, first, times), Queue(s, first.rows), times)
    requires Sent(s, first, times).now <= started
    requires Due(Sent(s, first, times).rows[Queue(s, first.rows)[|times|]], started)
    ensures Sent(s, first, times + [started]) ==
            Deliver(s, Sent(s, first, times), Queue(s, first.rows)[|times|], started)
    ensures Delivering(s, first, Sent(s, first, times + [started]), Queue(s, first.rows), times + [started])
  {
    DeliverNext(s, first, Sent(s, first, times), Queue(s, first.rows), times, started);
    SentOneMore(s, first, times + [started]);
    assert (times + [started])[..|times|] == times;
  }

  lemma DeliveryApart(s: Settings, first: World, u: Underway, u': Underway, act: Act, inserted: seq<Key>,
                      gone: set<nat>)
    requires Recorded(first) && Apart(s, first, u, inserted, gone) && Acts(s, first, u, u', act) && act.Delivery?
    ensures Apart(s, first, u', inserted, gone)
  {
    var q, n := Queue(s, first.rows), |u.times|;
    FoundIsOwn(s, first, inserted, gone, u.world.now, n);
    DeliverApart(s, Sent(s, first, u.times), q[n], act.started, inserted, gone, u.world.now);
    OneDeliveryMore(s, first, u.times, act.started);
  }

  /** One more event arrives. */
  lemma MergedMore(w: World, inserted: seq<Key>, gone: set<nat>, now: int, k: Key)
    requires k.id !in gone
    ensures var m := Merged(w, inserted, gone, now);
            Merged(w, inserted + [k], gone, now) ==
            m.(rows := m.rows[k.id := Event(k.pointInTime, New, 0, 0, 0, None)], arrived := m.arrived + [k])
  {
    assert (inserted + [k])[..|inserted|] == inserted;
  }

  lemma ForeignMore(w: World, inserted: seq<Key>, gone: set<nat>, now: int, k: Key)
    requires Recorded(w) && Foreign(w, inserted, gone, now)
    requires forall x | x in w.arrived + inserted :: x.id < k.id
    ensures Foreign(w, inserted + [k], gone, now) && k.id !in gone
  {
    forall x | x in w.arrived ensures x.id < k.id {
      assert x in w.arrived + inserted;
    }
    forall i | 0 <= i < |inserted| ensures inserted[i].id < k.id {
      assert inserted[i] in w.arrived + inserted;
    }
  }

  lemma InsertApart(s: Settings, first: World, u: Underway, u': Underway, act: Act, inserted: seq<Key>, gone: set<nat>)
    requires Recorded(first) && Apart(s, first, u, inserted, gone) && Acts(s, first, u, u', act) && act.Insert?
    ensures Apart(s, first, u', inserted + [Key(act.pointInTime, act.id)], gone)
  {
    var k := Key(act.pointInTime, act.id);
    ForeignMore(first, inserted, gone, u.world.now, k);
    MergedMore(Sent(s, first, u.times), inserted, gone, u.world.now, k);
    MergedMore(first, inserted, gone, u.world.now, k);
  }

  lemma RemoveApart(s: Settings, first: World, u: Underway, u': Underway, act: Act, inserted: seq<Key>, gone: set<nat>)
    requires Recorded(first) && Apart(s, first, u, inserted, gone) && Acts(s, first, u, u', act) && act.Remove?
    ensures Apart(s, first, u', inserted, gone + act.gone)
  {
    RemovedWereOld(first, inserted, gone, act.gone, u.world.now, act.at);
  }

  lemma RemovedWereOld(first: World, inserted: seq<Key>, gone: set<nat>, more: set<nat>, now: int, at: int)
    requires Foreign(first, inserted, gone, now) && now <= at
    requires forall id | id in more :: id in Merged(first, inserted, gone, now).rows
                                       && Terminal(Merged(first, inserted, gone, now).rows[id])
                                       && Merged(first, inserted, gone, now).rows[id].pointInTime <= at - RETENTION
    ensures Foreign(first, inserted, gone + more, at)
    ensures forall rows: map<nat, Event> :: rows - gone - more == rows - (gone + more)
  {
    forall id | id in more ensures id in OldIds(first.(now := at)) {
      NewIds(inserted, id);
    }
    forall rows: map<nat, Event> ensures rows - gone - more == rows - (gone + more) {
    }
  }

  /** Whatever is interleaved, a call under way is its deliveries and, apart from them, what the others did. */
  lemma {:induction false} StaysApart(s: Settings, first: World, us: seq<Underway>, acts: seq<Act>, n: nat)
      returns (inserted: seq<Key>, gone: set<nat>)
    requires Recorded(first) && Overlapped(s, first, us, acts) && n <= |acts|
    ensures Apart(s, first, us[n], inserted, gone)
    ensures inserted != [] ==> exists act :: act in acts && act.Insert?
  {
    if n == 0 {
      inserted, gone := [], {};
      assert Queue(s, first.rows)[..0] == [];
      NoDeliveries(s, first);
    } else {
      inserted, gone := StaysApart(s, first, us, acts, n - 1);
      var act := acts[n - 1];
      assert Acts(s, first, us[n - 1], us[n], act) && act in acts;
      match act {
        case Delivery(_) =>
          DeliveryApart(s, first, us[n - 1], us[n], act, inserted, gone);
        case Insert(id, pointInTime) =>
          InsertApart(s, first, us[n - 1], us[n], act, inserted, gone);
          inserted := inserted + [Key(pointInTime, id)];
        case Remove(_, more) =>
          RemoveApart(s, first, us[n - 1], us[n], act, inserted, gone);
          gone := gone + more;
      }
    }
  }

  /** Stopping and what the others did commute. */
  lemma StopApart(s: Settings, first: World, u: Underway, y: World, room: Option<nat>, call: Call, count: nat,
                  inserted: seq<Key>, gone: set<nat>) returns (x: World)
    requires Recorded(first) && Apart(s, first, u, inserted, gone) && call.times == u.times
    requires Within(Queue(s, first.rows), u.world.rows)
    requires StopsAt(s, AsFound(first, u.world), y, Queue(s, first.rows), room, call, count)
    ensures StopsAt(s, Sent(s, first, u.times), x, Queue(s, first.rows), room, call, count)
    ensures y.(arrived := u.world.arrived) == Merged(x, inserted, gone, y.now) && x.now <= y.now
    ensures forall id | id in gone :: id in x.rows && x.rows[id] == first.rows[id]
    ensures x.arrived == first.arrived && u.world.now <= y.now
  {
    var q, n, sent := Queue(s, first.rows), |u.times|, Sent(s, first, u.times);
    QueueMeaning(s, first.rows);
    x := sent;
    if n < |q| {
      FoundIsOwn(s, first, inserted, gone, u.world.now, n);
      match call.stop {
        case NotDue(checked) =>
          x := sent.(now := checked);
        case Missed(started, reply, finished) =>
          x := Miss(s, sent, q[n], started, reply, finished);
          MissApart(s, sent, q[n], started, reply, finished, inserted, gone, u.world.now);
        case _ =>
      }
    }
    forall id | id in gone ensures id in x.rows && x.rows[id] == first.rows[id] {
      assert id !in q;
    }
  }

  // ---------- one after the other ----------

  /** Time passes, the events arrive one by one, and the old rows are cleaned up. */
  lemma ThenTheOthers(s: Settings, scope: Scope, w: World, inserted: seq<Key>, gone: set<nat>, now: int)
    requires Reachable(s, scope, w) && w.now <= now && (inserted != [] ==> scope.arrivals)
    requires Recorded(w) && Foreign(w, inserted, gone, now)
    ensures Reachable(s, scope, Merged(w, inserted, gone, now))
  {
    ThenArrivals(s, scope, w, inserted, now);
    var all := Merged(w, inserted, {}, now);
    forall id | id in gone ensures id in OldIds(all) {
      NewIds(inserted, id);
      var k :| k in w.arrived && k.id == id;
    }
    assert Merged(w, inserted, gone, now) == all.(rows := all.rows - gone);
    OneMoreStep(s, scope, all, Merged(w, inserted, gone, now), Clean(gone));
  }

  lemma {:induction false} ThenArrivals(s: Settings, scope: Scope, w: World, inserted: seq<Key>, now: int)
    requires Reachable(s, scope, w) && w.now <= now && (inserted != [] ==> scope.arrivals)
    requires Foreign(w, inserted, {}, now)
    ensures Reachable(s, scope, Merged(w, inserted, {}, now))
    decreases |inserted|
  {
    if inserted == [] {
      assert Merged(w, [], {}, now) == w.(now := now);
      OneMoreStep(s, scope, w, w.(now := now), Tick(now));
    } else {
      var n := |inserted| - 1;
      var k, before := inserted[n], Merged(w, inserted[..n], {}, now);
      ThenArrivals(s, scope, w, inserted[..n], now);
      assert inserted == inserted[..n] + [k];
      assert forall x | x in before.arrived :: x.id < k.id;
      MergedMore(w, inserted[..n], {}, now, k);
      OneMoreStep(s, scope, before, Merged(w, inserted, {}, now), Arrive(k.id, k.pointInTime));
    }
  }

  lemma ReachableRecorded(s: Settings, scope: Scope, w: World)
    requires Reachable(s, scope, w)
    ensures Recorded(w)
  {
    var ws: seq<World>, steps: seq<Step> :| Run(s, ws, steps) && ws[|steps|] == w;
    RunSound(s, ws, steps, false);
    assert forall id | id in w.rows :: Booked(s, w, id, false) && KeyOf(w.rows, id).id == id;
  }

  /** A call that is committed leads where the call by itself and then the others would have led. */
  lemma CommittedCall(s: Settings, scope: Scope, w: World, us: seq<Underway>, acts: seq<Act>, w': World, end: Step)
    requires Reachable(s, scope, w) && Overlapped(s, w, us, acts) && Finishes(s, w, us[|acts|], w', end) && end.Send?
    requires (exists act | act in acts :: act.Insert?) ==> scope.arrivals
    ensures Reachable(s, scope, w')
  {
    ReachableRecorded(s, scope, w);
    var inserted, gone := StaysApart(s, w, us, acts, |acts|);
    var x := CommittedApart(s, w, us[|acts|], w', end, inserted, gone);
    OneMoreStep(s, scope, w, x, end);
    ReachableRecorded(s, scope, x);
    ThenTheOthers(s, scope, x, inserted, gone, w'.now);
  }

  lemma CommittedApart(s: Settings, w: World, u: Underway, w': World, end: Step, inserted: seq<Key>, gone: set<nat>)
      returns (x: World)
    requires Recorded(w) && Apart(s, w, u, inserted, gone) && Finishes(s, w, u, w', end) && end.Send?
    ensures Next(s, w, x, end) && x.now <= w'.now
    ensures w' == Merged(x, inserted, gone, w'.now) && Foreign(x, inserted, gone, w'.now)
  {
    x := StopApart(s, w, u, w'.(arrived := w.arrived), end.room, end.call, end.count, inserted, gone);
  }

  /** So does a call that is undone. */
  lemma UndoneCall(s: Settings, scope: Scope, w: World, us: seq<Underway>, acts: seq<Act>, w': World, end: Step)
    requires Reachable(s, scope, w) && Overlapped(s, w, us, acts) && Finishes(s, w, us[|acts|], w', end) && end.Abort?
    requires ((exists act | act in acts :: act.Insert?) ==> scope.arrivals) && scope.aborts
    ensures Reachable(s, scope, w')
  {
    ReachableRecorded(s, scope, w);
    var inserted, gone := StaysApart(s, w, us, acts, |acts|);
    var x := UndoneApart(s, w, us[|acts|], w', end, inserted, gone);
    var undone := x.(rows := w.rows);
    OneMoreStep(s, scope, w, undone, end);
    ReachableRecorded(s, scope, undone);
    ThenTheOthers(s, scope, undone, inserted, gone, w'.now);
  }

  lemma UndoneApart(s: Settings, w: World, u: Underway, w': World, end: Step, inserted: seq<Key>, gone: set<nat>)
      returns (x: World)
    requires Recorded(w) && Apart(s, w, u, inserted, gone) && Finishes(s, w, u, w', end) && end.Abort?
    ensures CutOff(s, w, x, end.call)
    ensures var undone := x.(rows := w.rows);
            && w' == Merged(undone, inserted, gone, w'.now)
            && undone.now <= w'.now && Foreign(undone, inserted, gone, w'.now)
  {
    var q, call := Queue(s, w.rows), end.call;
    var reached :|
      && (if call.stop.Missed? then StopsAt(s, AsFound(w, u.world), reached, q, None, call, |call.times| + 1)
          else reached == AsFound(w, u.world))
      && w' == reached.(rows := u.saved, arrived := u.world.arrived);
    x := Sent(s, w, u.times);
    if call.stop.Missed? {
      x := StopApart(s, w, u, reached, None, call, |call.times| + 1, inserted, gone);
    }
  }

  ghost predicate ReachableOverlapped(s: Settings, scope: Scope, w: World) {
    exists ws: seq<World>, strides: seq<Stride> :: Course(s, scope, ws, strides) && ws[|strides|] == w
  }

  lemma {:induction false} CourseReachable(s: Settings, scope: Scope, ws: seq<World>, strides: seq<Stride>, n: nat)
    requires Course(s, scope, ws, strides) && n <= |strides|
    ensures Reachable(s, scope, ws[n])
  {
    if n == 0 {
      assert Run(s, [ws[0]], []) && [ws[0]][0] == ws[0];
    } else {
      CourseReachable(s, scope, ws, strides, n - 1);
      assert Strides(s, ws[n - 1], ws[n], strides[n - 1]) && Allows(scope, strides[n - 1]);
      match strides[n - 1] {
        case Plain(step) => OneMoreStep(s, scope, ws[n - 1], ws[n], step);
        case Busy(us, acts, end) =>
          if end.Send? {
            CommittedCall(s, scope, ws[n - 1], us, acts, ws[n], end);
          } else {
            UndoneCall(s, scope, ws[n - 1], us, acts, ws[n], end);
          }
      }
    }
  }

  /** Events that are inserted and rows that are cleaned up while calls are under way lead to no other worlds than the
      same events and clean-ups between calls, so what holds in every world runs lead to holds with them as well. */
  lemma OverlapsChangeNothing(s: Settings, scope: Scope, w: World)
    ensures ReachableOverlapped(s, scope, w) <==> Reachable(s, scope, w)
  {
    if ReachableOverlapped(s, scope, w) {
      var ws: seq<World>, strides: seq<Stride> :| Course(s, scope, ws, strides) && ws[|strides|] == w;
      CourseReachable(s, scope, ws, strides, |strides|);
    }
    if Reachable(s, scope, w) {
      var ws: seq<World>, steps: seq<Step> :| Run(s, ws, steps) && PermitsAll(scope, steps) && ws[|steps|] == w;
      var strides := seq(|steps|, i requires 0 <= i < |steps| => Plain(steps[i]));
      assert forall i | 0 <= i < |steps| :: steps[i] in steps;
      assert Course(s, scope, ws, strides);
    }
  }

  /** The events a call found are there until it ends, so asking for them to be there excludes nothing. */
  lemma FoundStay(s: Settings, scope: Scope, w: World, us: seq<Underway>, acts: seq<Act>, n: nat)
    requires Reachable(s, scope, w) && Overlapped(s, w, us, acts) && n <= |acts|
    ensures Within(Queue(s, w.rows), us[n].world.rows)
  {
    ReachableRecorded(s, scope, w);
    var inserted, gone := StaysApart(s, w, us, acts, n);
    forall i | 0 <= i < |Queue(s, w.rows)| ensures Queue(s, w.rows)[i] in us[n].world.rows {
      FoundIsOwn(s, w, inserted, gone, us[n].world.now, i);
    }
  }

  /** In order, with events that arrive while calls are under way: an attempt for an earlier event follows one for a
      later event only if it arrived after the call of that one began. */
  lemma InOrderOverlapped(s: Settings, ws: seq<World>, strides: seq<Stride>)
    requires Course(s, NO_ABORTS, ws, strides) && s.mode == InOrder
    ensures Ordered(ws[|strides|])
  {
    CourseReachable(s, NO_ABORTS, ws, strides, |strides|);
    var cs: seq<World>, steps: seq<Step> :|
      Run(s, cs, steps) && PermitsAll(NO_ABORTS, steps) && cs[|steps|] == ws[|strides|];
    InOrderRuns(s, cs, steps);
  }
}
