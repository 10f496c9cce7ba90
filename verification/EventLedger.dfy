/** Guaranteed delivery: the attempts made for an event always agree with its row. */
module EventLedger {
  import opened Events
  import opened EventRuns

  /** Attempts for an event that were delivered, or that failed. */
  function Count(log: seq<Attempt>, id: nat, delivered: bool): nat {
    if log == [] then 0
    else
      var last := log[|log| - 1];
      Count(log[..|log| - 1], id, delivered) + if last.key.id == id && last.reply.Delivered? == delivered then 1 else 0
  }

  lemma CountMore(log: seq<Attempt>, a: Attempt, id: nat, delivered: bool)
    ensures Count(log + [a], id, delivered) ==
            Count(log, id, delivered) + if a.key.id == id && a.reply.Delivered? == delivered then 1 else 0
  {
  }

  lemma {:induction false} CountNone(log: seq<Attempt>, id: nat, delivered: bool)
    requires forall a | a in log :: a.key.id != id
    ensures Count(log, id, delivered) == 0
  {
    if log != [] {
      assert log[|log| - 1] in log;
      CountNone(log[..|log| - 1], id, delivered);
    }
  }

  /** The length of a backoff cycle; settings below one act like one. */
  function Period(s: Settings): nat {
    if s.backoffEvery >= 1 then s.backoffEvery else 1
  }

  /** What the fields of a stored event say about each other. */
  ghost predicate RowOk(s: Settings, e: Event) {
    && e.retries == e.backoffCycles * Period(s) + e.retriesInCycle
    && e.retriesInCycle <= Period(s)
    && (e.retriesInCycle == Period(s) ==> e.handleAt.Some?)
    && match e.state
       case New => e.retries == 0 && e.backoffCycles == 0 && e.handleAt.None?
       case Retry => e.retriesInCycle >= 1 && (s.retryMax > 0 ==> e.retries <= s.retryMax)
       case Failed => s.retryMax > 0 && e.retries == s.retryMax + 1
       case Success => s.retryMax > 0 ==> e.retries <= s.retryMax
  }

  lemma BeginOk(s: Settings, e: Event)
    requires RowOk(s, e) && !Terminal(e)
    ensures var b := Begin(s, e);
            b.retries == b.backoffCycles * Period(s) + b.retriesInCycle == e.retries && b.retriesInCycle < Period(s)
  {
  }

  lemma AttemptKeepsRowOk(s: Settings, e: Event, reply: Reply, now: int)
    requires RowOk(s, e) && !Terminal(e)
    ensures RowOk(s, Succeeds(s, e)) && RowOk(s, Fails(s, e, reply, now))
  {
    BeginOk(s, e);
  }

  /** The scope of runs a ledger is kept over: exact ones need every call to complete. */
  function ScopeOf(exact: bool): Scope {
    if exact then NO_ABORTS else ANYTHING
  }

  /** An event that is done with: delivered, or given up after one attempt more than the allowed retries. */
  predicate Settled(s: Settings, log: seq<Attempt>, id: nat, exact: bool) {
    var hits, faults := Count(log, id, true), Count(log, id, false);
    if exact then if hits == 0 then s.retryMax > 0 && faults == s.retryMax + 1
                  else hits == 1 && (s.retryMax > 0 ==> faults <= s.retryMax)
    else hits >= 1 || (s.retryMax > 0 && faults >= s.retryMax + 1)
  }

  /** The row of an event agrees with the attempts made for it, or accounts for some of them. */
  ghost predicate Booked(s: Settings, w: World, id: nat, exact: bool)
    requires id in w.rows
  {
    var hits, faults := Count(w.log, id, true), Count(w.log, id, false);
    var hit := if w.rows[id].state == Success then 1 else 0;
    && RowOk(s, w.rows[id]) && KeyOf(w.rows, id) in w.arrived
    && if exact then faults == w.rows[id].retries && hits == hit
       else faults >= w.rows[id].retries && hits >= hit
  }

  ghost predicate Sound(s: Settings, w: World, exact: bool) {
    && (forall id | id in w.rows :: Booked(s, w, id, exact))
    && (forall k | k in w.arrived :: if k.id in w.rows then w.rows[k.id].pointInTime == k.pointInTime
                                     else Settled(s, w.log, k.id, exact))
    && (forall a | a in w.log :: a.key in w.arrived)
  }

  lemma CountsAfter(log: seq<Attempt>, a: Attempt)
    ensures forall x, d :: Count(log + [a], x, d) ==
              Count(log, x, d) + if a.key.id == x && a.reply.Delivered? == d then 1 else 0
  {
    forall x, d
      ensures Count(log + [a], x, d) == Count(log, x, d) + if a.key.id == x && a.reply.Delivered? == d then 1 else 0
    {
      CountMore(log, a, x, d);
    }
  }

  /** Changing one row and logging its attempt keeps everything else booked. */
  lemma SoundAfterAttempt(s: Settings, w: World, w': World, id: nat, a: Attempt, exact: bool)
    requires Sound(s, w, exact) && id in w.rows && id in w'.rows
    requires w'.rows == w.rows[id := w'.rows[id]] && w'.rows[id].pointInTime == w.rows[id].pointInTime
    requires w'.log == w.log + [a] && a.key == KeyOf(w.rows, id) && w'.arrived == w.arrived
    requires RowOk(s, w'.rows[id])
    requires w'.rows[id].retries == w.rows[id].retries + if a.reply.Delivered? then 0 else 1
    requires w.rows[id].state != Success && (w'.rows[id].state == Success <==> a.reply.Delivered?)
    ensures Sound(s, w', exact)
  {
    CountsAfter(w.log, a);
    assert Booked(s, w, id, exact);
    forall x | x in w'.rows ensures Booked(s, w', x, exact) {
      assert Booked(s, w, x, exact);
    }
    forall x | x in w'.log ensures x.key in w'.arrived {
      assert x in w.log || x == a;
    }
  }

  lemma AttemptSound(s: Settings, w: World, w': World, move: Move, exact: bool)
    requires Sound(s, w, exact) && Moves(s, w, w', move) && !move.Wait?
    ensures Sound(s, w', exact)
  {
    assert Booked(s, w, move.id, exact);
    AttemptKeepsRowOk(s, w.rows[move.id], if move.Fault? then move.reply else Refused,
                      if move.Fault? then move.finished else 0);
    SoundAfterAttempt(s, w, w', move.id, w'.log[|w.log|], exact);
  }

  /** A loose ledger may contain attempts its rows know nothing of. */
  lemma SoundWithMore(s: Settings, saved: World, saved': World, a: Attempt)
    requires Sound(s, saved, false) && a.key in saved.arrived
    requires saved'.rows == saved.rows && saved'.arrived == saved.arrived && saved'.log == saved.log + [a]
    ensures Sound(s, saved', false)
  {
    CountsAfter(saved.log, a);
    forall x | x in saved'.rows ensures Booked(s, saved', x, false) {
      assert Booked(s, saved, x, false);
    }
  }

  lemma ArrivalSound(s: Settings, w: World, w': World, step: Step, exact: bool)
    requires Sound(s, w, exact) && Next(s, w, w', step) && step.Arrive?
    ensures Sound(s, w', exact)
  {
    var id := step.id;
    assert forall a | a in w.log :: a.key.id != id;
    CountNone(w.log, id, true);
    CountNone(w.log, id, false);
    assert w'.arrived[|w.arrived|] == Key(step.pointInTime, id);
    forall x | x in w'.rows ensures Booked(s, w', x, exact) {
      assert x != id ==> Booked(s, w, x, exact);
    }
  }

  lemma CleanSound(s: Settings, w: World, gone: set<nat>, exact: bool)
    requires Sound(s, w, exact) && gone <= OldIds(w)
    ensures Sound(s, w.(rows := w.rows - gone), exact)
  {
    forall x | x in w.rows && Terminal(w.rows[x]) ensures Settled(s, w.log, x, exact) {
      assert Booked(s, w, x, exact);
    }
    forall x | x in w.rows - gone ensures Booked(s, w.(rows := w.rows - gone), x, exact) {
      assert Booked(s, w, x, exact);
    }
  }

  /** Both the rows of a call and, unless calls complete, the committed ones agree with the attempts. */
  ghost predicate BothSound(s: Settings, exact: bool, saved: map<nat, Event>, w: World) {
    Sound(s, w, exact) && (!exact ==> Sound(s, w.(rows := saved), false))
  }

  lemma MoveSound(s: Settings, exact: bool, saved: map<nat, Event>, w: World, w': World, move: Move)
    requires BothSound(s, exact, saved, w) && Moves(s, w, w', move)
    ensures BothSound(s, exact, saved, w')
  {
    if move.Wait? {
      assert forall x | x in w.rows :: Booked(s, w, x, exact) && Booked(s, w', x, exact);
      if !exact {
        var a, b := w.(rows := saved), w'.(rows := saved);
        assert forall x | x in saved :: Booked(s, a, x, false) && Booked(s, b, x, false);
      }
    } else {
      AttemptSound(s, w, w', move, exact);
      assert Booked(s, w, move.id, exact);
      if !exact {
        SoundWithMore(s, w.(rows := saved), w'.(rows := saved), w'.log[|w.log|]);
      }
    }
  }

  lemma EndsSound(s: Settings, exact: bool, saved: map<nat, Event>, w: World, saved': map<nat, Event>, w': World)
    requires BothSound(s, exact, saved, w) && Ends(ScopeOf(exact), saved, w, saved', w')
    ensures BothSound(s, exact, saved', w')
  {
    assert w.(rows := w.rows) == w;
    if !exact {
      assert (w.(rows := saved)).(rows := saved) == w.(rows := saved);
      forall id | id in w.rows ensures Booked(s, w, id, false) {
        assert Booked(s, w, id, exact);
      }
    }
  }

  lemma StartSound(s: Settings, exact: bool, now: int)
    ensures BothSound(s, exact, map[], World(map[], now, [], []))
  {
  }

  /** Delivery over whole runs. After any run an event that arrived is still in the table, with failed attempts
      behind it for all of its retries, or is gone from it, and then it was delivered or was given up after
      retry_max + 1 failed attempts. If no call was cut off, these numbers are exact: it has as many failed attempts
      behind it as its row says, and it was delivered exactly once or given up after exactly retry_max + 1. */
  lemma RunSound(s: Settings, ws: seq<World>, steps: seq<Step>, exact: bool)
    requires Run(s, ws, steps) && PermitsAll(ScopeOf(exact), steps)
    ensures Sound(s, ws[|steps|], exact)
  {
    ghost var inv := (saved: map<nat, Event>, w: World) => BothSound(s, exact, saved, w);
    forall saved, w: World, w': World, move | inv(saved, w) && Moves(s, w, w', move) ensures inv(saved, w') {
      MoveSound(s, exact, saved, w, w', move);
    }
    forall w: World, w': World, step | inv(w.rows, w) && Next(s, w, w', step) && Outside(step)
      ensures inv(w'.rows, w')
    {
      OutsideSound(s, exact, w, w', step);
    }
    forall saved, w: World, saved', w': World | inv(saved, w) && Ends(ScopeOf(exact), saved, w, saved', w')
      ensures inv(saved', w')
    {
      EndsSound(s, exact, saved, w, saved', w');
    }
    StartSound(s, exact, ws[0].now);
    PathKeeps(s, inv, ScopeOf(exact), ws, steps);
  }

  lemma OutsideSound(s: Settings, exact: bool, w: World, w': World, step: Step)
    requires BothSound(s, exact, w.rows, w) && Next(s, w, w', step) && Outside(step)
    ensures BothSound(s, exact, w'.rows, w')
  {
    assert w.(rows := w.rows) == w && w'.(rows := w'.rows) == w';
    if step.Arrive? {
      ArrivalSound(s, w, w', step, exact);
    } else {
      CleanSound(s, w, step.gone, exact);
    }
  }

  /** The attempts made for a stored event are its retries, and one more once it succeeded, if no call was cut off. */
  lemma AttemptLedger(s: Settings, ws: seq<World>, steps: seq<Step>, id: nat)
    requires Run(s, ws, steps) && PermitsAll(NO_ABORTS, steps) && id in ws[|steps|].rows
    ensures var w := ws[|steps|];
            var e := w.rows[id];
            Count(w.log, id, false) + Count(w.log, id, true) == e.retries + if e.state == Success then 1 else 0
  {
    RunSound(s, ws, steps, true);
    assert Booked(s, ws[|steps|], id, true);
  }

  /** The states mark exactly the bounded numbers of retries, in every run. */
  lemma RetryBounds(s: Settings, ws: seq<World>, steps: seq<Step>, id: nat)
    requires Run(s, ws, steps) && id in ws[|steps|].rows
    ensures var e := ws[|steps|].rows[id];
            && (s.retryMax > 0 && e.state == Retry ==> 1 <= e.retries <= s.retryMax)
            && (s.retryMax > 0 ==> (e.state == Failed <==> e.retries == s.retryMax + 1))
            && (s.retryMax <= 0 ==> e.state != Failed)
  {
    RunSound(s, ws, steps, false);
    assert Booked(s, ws[|steps|], id, false);
    NoNegativeCycles(ws[|steps|].rows[id].backoffCycles, Period(s));
  }

  lemma NoNegativeCycles(cycles: nat, period: nat)
    ensures cycles * period >= 0
  {
  }

  /** Backoff arithmetic, for the cycle lengths the settings allow, on every path that writes the counters. */
  lemma BackoffArithmetic(s: Settings, ws: seq<World>, steps: seq<Step>, id: nat)
    requires Run(s, ws, steps) && id in ws[|steps|].rows && s.backoffEvery >= 1
    ensures var e := ws[|steps|].rows[id];
            && e.retries == e.backoffCycles * s.backoffEvery + e.retriesInCycle
            && 0 <= e.retriesInCycle <= s.backoffEvery
            && (e.retriesInCycle == s.backoffEvery ==> e.handleAt.Some?)
  {
    RunSound(s, ws, steps, false);
    assert Booked(s, ws[|steps|], id, false);
  }

  // ---------- what is done stays done ----------

  /** An event done with in the first world keeps its row for as long as that is stored, never comes back
      once it is cleaned up, and is never attempted again. */
  ghost predicate Absorbed(w: World, w': World, id: nat) {
    && Kept(w.rows, w'.rows, id)
    && w.log <= w'.log && (forall i | |w.log| <= i < |w'.log| :: w'.log[i].key.id != id)
    && (exists k :: k in w'.arrived && k.id == id)
  }

  predicate Kept(rows: map<nat, Event>, rows': map<nat, Event>, id: nat) {
    id in rows' ==> id in rows && rows'[id] == rows[id]
  }

  ghost predicate BothAbsorbed(first: World, saved: map<nat, Event>, w: World, id: nat) {
    id in first.rows && Terminal(first.rows[id]) && Absorbed(first, w, id) && Kept(first.rows, saved, id)
  }

  lemma MoveAbsorbed(s: Settings, first: World, saved: map<nat, Event>, w: World, w': World, move: Move, id: nat)
    requires BothAbsorbed(first, saved, w, id) && Moves(s, w, w', move)
    ensures BothAbsorbed(first, saved, w', id)
  {
  }

  lemma OutsideAbsorbed(s: Settings, first: World, w: World, w': World, step: Step, id: nat)
    requires BothAbsorbed(first, w.rows, w, id) && Next(s, w, w', step) && Outside(step)
    ensures BothAbsorbed(first, w'.rows, w', id)
  {
    var k :| k in w.arrived && k.id == id;
    assert k in w'.arrived;
  }

  lemma SettledForGood(s: Settings, ws: seq<World>, steps: seq<Step>, id: nat)
    requires Path(s, ws, steps) && Sound(s, ws[0], false) && id in ws[0].rows && Terminal(ws[0].rows[id])
    ensures Absorbed(ws[0], ws[|steps|], id)
  {
    var first := ws[0];
    ghost var inv := (saved: map<nat, Event>, w: World) => BothAbsorbed(first, saved, w, id);
    assert Booked(s, first, id, false);
    forall w: World, w': World, step | inv(w.rows, w) && Next(s, w, w', step) && Outside(step)
      ensures inv(w'.rows, w')
    {
      OutsideAbsorbed(s, first, w, w', step, id);
    }
    forall saved, w: World, w': World, move | inv(saved, w) && Moves(s, w, w', move) ensures inv(saved, w') {
      MoveAbsorbed(s, first, saved, w, w', move, id);
    }
    assert BothAbsorbed(first, first.rows, first, id);
    PathKeeps(s, inv, ANYTHING, ws, steps);
  }

  /** Only clean-up removes rows, and only rows that are done with and at least thirty days old. */
  lemma OnlyOldRowsGo(s: Settings, w: World, w': World, step: Step, id: nat)
    requires Next(s, w, w', step) && id in w.rows && id !in w'.rows
    ensures step.Clean? && (w.rows[id].state == Success || w.rows[id].state == Failed)
    ensures w.rows[id].pointInTime <= w.now - 2_592_000
  {
  }
}
