/** Many workers and clients on one job table, any of which may crash at any moment. */
module JobRuns {
  import opened Basics
  import opened Jobs

  /** A worker has claimed a job, is running it, or has run it and not committed yet. */
  datatype Stage = Fetched | Running | Returned
  datatype Claimed = Claimed(worker: nat, job: Job, stage: Stage)

  /** The committed rows and the claims under way; the jobs of at-least-once queues stay among the rows, locked,
      until their worker commits. The last five fields only record what happened. */
  datatype State = State(rows: map<nat, Job>, nextId: nat, pending: map<nat, Job>, claims: map<nat, Claimed>,
                         enqueued: map<nat, Job>, runs: seq<nat>, returned: set<nat>, done: set<nat>, lost: set<nat>)

  /** Which queues are of the at-most-once kind, and whether the table keeps identifiers unique. */
  datatype Config = Config(onceQueues: set<string>, unique: bool)

  predicate Once(c: Config, job: Job) {
    job.queue in c.onceQueues
  }

  predicate Locked(s: State, id: nat) {
    id in s.claims && id in s.rows
  }

  predicate Taken(s: State, identifier: Option<string>) {
    identifier.Some? && exists id :: id in s.rows && s.rows[id].identifier == identifier
  }

  /** Checking for a heartbeat job and inserting one are two steps of a client; between them anything may happen. */
  datatype Step =
    | Check(client: nat, job: Job)
    | Insert(client: nat)
    | Claim(worker: nat, id: nat, query: Query)
    | Start(id: nat)
    | Return(id: nat)
    | Commit(id: nat)
    | Fail(id: nat)

  /** A crash and a job that raises end alike: the claim of an at-most-once queue stays committed, the other is
      rolled back. */
  ghost predicate Next(c: Config, s: State, s': State, step: Step) {
    match step
    case Check(p, job) => s' == if Taken(s, job.identifier) then s else s.(pending := s.pending[p := job])
    case Insert(p) =>
      && p in s.pending
      && var job := s.pending[p].(id := s.nextId);
         var after := s.(pending := s.pending - {p}, nextId := s.nextId + 1);
         if c.unique && Taken(s, job.identifier) then
           // the database first waits for whoever has locked the other row
           (forall id | Locked(s, id) :: s.rows[id].identifier != job.identifier) && s' == after
         else s' == after.(rows := s.rows[job.id := job], enqueued := s.enqueued[job.id := job])
    case Claim(w, id, q) =>
      && id in s.rows && !Locked(s, id) && Due(q, s.rows[id])
      && (forall x | x in s.rows && !Locked(s, x) && Due(q, s.rows[x]) :: !Before(s.rows[x], s.rows[id]))
      && s' == s.(claims := s.claims[id := Claimed(w, s.rows[id], Fetched)],
                  rows := if Once(c, s.rows[id]) then s.rows - {id} else s.rows)
    case Start(id) =>
      && id in s.claims && s.claims[id].stage == Fetched
      && s' == s.(claims := s.claims[id := s.claims[id].(stage := Running)], runs := s.runs + [id])
    case Return(id) =>
      && id in s.claims && s.claims[id].stage == Running
      && s' == if Once(c, s.claims[id].job) then
                 s.(claims := s.claims - {id}, returned := s.returned + {id}, done := s.done + {id})
               else s.(claims := s.claims[id := s.claims[id].(stage := Returned)], returned := s.returned + {id})
    case Commit(id) =>
      && id in s.claims && s.claims[id].stage == Returned
      && s' == s.(claims := s.claims - {id}, rows := s.rows - {id}, done := s.done + {id})
    case Fail(id) =>
      && id in s.claims
      && s' == s.(claims := s.claims - {id}, lost := if Once(c, s.claims[id].job) then s.lost + {id} else s.lost)
  }

  const START := State(map[], 0, map[], map[], map[], [], {}, {}, {})

  ghost predicate Run(c: Config, states: seq<State>, steps: seq<Step>) {
    Path(c, states, steps) && states[0] == START
  }

  // ---------- where a job is ----------

  /** Exactly one of: stored and free, claimed, done, lost. A claim locks the row of an at-least-once queue and has
      removed the row of an at-most-once queue; only at-most-once queues lose jobs; what is done has returned. */
  predicate Placed(c: Config, s: State, id: nat)
    requires id in s.enqueued
  {
    var stored, claimed, done, lost := id in s.rows && id !in s.claims, id in s.claims, id in s.done, id in s.lost;
    && (if stored then !claimed && !done && !lost
        else if claimed then !done && !lost && (id in s.rows <==> !Once(c, s.enqueued[id]))
        else if done then !lost && id in s.returned
        else lost && Once(c, s.enqueued[id]))
    && (id in s.rows ==> s.rows[id] == s.enqueued[id])
    && (claimed ==> s.claims[id].job == s.enqueued[id])
    && (claimed && s.claims[id].stage == Returned ==> id in s.returned && id in s.rows)
  }

  ghost predicate AllPlaced(c: Config, s: State) {
    && (forall id | id in s.enqueued :: id < s.nextId && s.enqueued[id].id == id && Placed(c, s, id))
    && (forall id | id in s.rows || id in s.claims || id in s.done || id in s.lost || id in s.runs :: id in s.enqueued)
  }

  /** A worker claims a due job that nobody else has claimed; no other such job has a higher priority, or the same and
      is older. */
  lemma ClaimOrder(c: Config, s: State, s': State, w: nat, id: nat, q: Query, x: nat)
    requires Next(c, s, s', Claim(w, id, q)) && x in s.rows && x !in s.claims
    requires s.rows[x].executeAt <= q.now && s.rows[x].id !in q.exclude && s.rows[x].queue == q.queue
    requires s.rows[x].tenant == q.tenant && s.rows[x].task in q.tasks
    ensures id in s.rows && id !in s.claims && s.rows[id].executeAt <= q.now
    ensures s.rows[id].priority > s.rows[x].priority
            || (s.rows[id].priority == s.rows[x].priority && s.rows[id].createdAt <= s.rows[x].createdAt)
  {
    assert Due(q, s.rows[x]) && !Before(s.rows[x], s.rows[id]);
  }

  lemma NextPlaced(c: Config, s: State, s': State, step: Step)
    requires AllPlaced(c, s) && Next(c, s, s', step)
    ensures AllPlaced(c, s')
  {
    if step.Insert? {
      NewJobPlaced(c, s, s', step);
    } else {
      forall id | id in s'.enqueued ensures Placed(c, s', id) {
        StaysPlaced(c, s, s', step, id);
      }
    }
  }

  lemma StaysPlaced(c: Config, s: State, s': State, step: Step, id: nat)
    requires AllPlaced(c, s) && Next(c, s, s', step) && !step.Insert? && id in s'.enqueued
    ensures Placed(c, s', id)
  {
    assert Placed(c, s, id);
  }

  lemma NewJobPlaced(c: Config, s: State, s': State, step: Step)
    requires AllPlaced(c, s) && Next(c, s, s', step) && step.Insert?
    ensures AllPlaced(c, s')
  {
  }

  // ---------- at most once ----------

  /** No at-most-once job is run twice, and none that was run is left to be run. */
  ghost predicate RunsAtMostOnce(c: Config, s: State) {
    && (forall i, j | 0 <= i < j < |s.runs| && s.runs[i] == s.runs[j] && s.runs[i] in s.enqueued ::
        !Once(c, s.enqueued[s.runs[i]]))
    && (forall id | id in s.runs && id in s.enqueued && Once(c, s.enqueued[id]) ::
        id !in s.rows && (id in s.claims ==> s.claims[id].stage != Fetched))
  }

  lemma NextRunsAtMostOnce(c: Config, s: State, s': State, step: Step)
    requires AllPlaced(c, s) && RunsAtMostOnce(c, s) && Next(c, s, s', step)
    ensures RunsAtMostOnce(c, s')
  {
    if step.Insert? {
      assert s.nextId !in s.enqueued;
    }
    forall id | id in s'.runs && id in s'.enqueued && Once(c, s'.enqueued[id])
      ensures id !in s'.rows && (id in s'.claims ==> s'.claims[id].stage != Fetched)
    {
      assert id in s.enqueued && Placed(c, s, id);
    }
  }

  /** At most one stored job per identifier. */
  lemma NextUnique(c: Config, s: State, s': State, step: Step)
    requires c.unique && UniqueIdentifiers(s.rows) && Next(c, s, s', step)
    ensures UniqueIdentifiers(s'.rows)
  {
  }

  /** After any run of any number of workers, clients and crashes: every enqueued job is in exactly one place, no
      at-most-once job was started twice, and at most one stored job carries each identifier. */
  lemma {:induction false} RunSafe(c: Config, states: seq<State>, steps: seq<Step>)
    requires Run(c, states, steps)
    ensures var s := states[|steps|];
            AllPlaced(c, s) && RunsAtMostOnce(c, s) && (c.unique ==> UniqueIdentifiers(s.rows))
    decreases |steps|
  {
    var n := |steps| - 1;
    if n >= 0 {
      assert Run(c, states[..n + 1], steps[..n]) by {
        assert forall i | 0 <= i < n :: Next(c, states[i], states[i + 1], steps[i]);
      }
      RunSafe(c, states[..n + 1], steps[..n]);
      NextPlaced(c, states[n], states[n + 1], steps[n]);
      NextRunsAtMostOnce(c, states[n], states[n + 1], steps[n]);
      if c.unique {
        NextUnique(c, states[n], states[n + 1], steps[n]);
      }
    }
  }

  // ---------- at least once ----------

  /** A job of an at-least-once queue leaves the table only in a step that commits a run of it that returned; from then
      on it is done, and it never is lost. */
  lemma LeavesAfterReturn(c: Config, states: seq<State>, steps: seq<Step>, k: nat, id: nat)
    requires Run(c, states, steps) && k < |steps|
    requires id in states[k].rows && id !in states[k + 1].rows && !Once(c, states[k].rows[id])
    ensures steps[k] == Commit(id) && id in states[k].returned && id in states[k + 1].done && id !in states[k + 1].lost
  {
    assert Run(c, states[..k + 1], steps[..k]) by {
      assert forall i | 0 <= i < k :: Next(c, states[i], states[i + 1], steps[i]);
    }
    RunSafe(c, states[..k + 1], steps[..k]);
    assert Next(c, states[k], states[k + 1], steps[k]);
    assert id in states[k].enqueued && Placed(c, states[k], id);
  }

  // ---------- what the unique constraint is for ----------

  /** Checking before inserting does not keep identifiers unique by itself: two clients may both find none. */
  lemma CheckIsNotEnough(c: Config, job: Job)
    requires !c.unique && job.identifier.Some?
    ensures exists states: seq<State>, steps: seq<Step> ::
            Run(c, states, steps) && !UniqueIdentifiers(states[|steps|].rows)
  {
    var s1 := START.(pending := map[0 := job]);
    var s2 := START.(pending := map[0 := job, 1 := job]);
    var a, b := job.(id := 0), job.(id := 1);
    var s3 := s2.(pending := map[1 := job], nextId := 1, rows := map[0 := a], enqueued := map[0 := a]);
    var s4 := s3.(pending := map[], nextId := 2, rows := map[0 := a, 1 := b], enqueued := map[0 := a, 1 := b]);
    assert s2.pending - {0} == s3.pending && s3.pending - {1} == s4.pending;
    var states, steps := [START, s1, s2, s3, s4], [Check(0, job), Check(1, job), Insert(0), Insert(1)];
    assert Next(c, START, s1, steps[0]) && Next(c, s1, s2, steps[1]) && Next(c, s2, s3, steps[2])
           && Next(c, s3, s4, steps[3]);
    assert Run(c, states, steps);
    assert states[4].rows[0].identifier == states[4].rows[1].identifier;
  }

  /** Identifiers stay unique in every run exactly when the table has the constraint. */
  lemma UniqueExactlyWhen(c: Config)
    ensures
      (forall states: seq<State>, steps: seq<Step> | Run(c, states, steps) :: UniqueIdentifiers(states[|steps|].rows))
      <==> c.unique
  {
    if c.unique {
      forall states: seq<State>, steps: seq<Step> | Run(c, states, steps)
        ensures UniqueIdentifiers(states[|steps|].rows)
      {
        RunSafe(c, states, steps);
      }
    } else {
      CheckIsNotEnough(c, Job(0, "", 0, "", 0, 0, 0, Some("")));
    }
  }

  // ---------- one worker at a time ----------

  ghost predicate Path(c: Config, states: seq<State>, steps: seq<Step>) {
    |states| == |steps| + 1 && forall i | 0 <= i < |steps| :: Next(c, states[i], states[i + 1], steps[i])
  }

  /** What is left of a worker that runs one job while nobody else does anything. */
  ghost predicate RanAlone(c: Config, s: State, s': State, outcome: Outcome) {
    match outcome
    case Nothing => s' == s
    case Ran(j) =>
      s'.runs == s.runs + [j.id] && s'.returned == s.returned + {j.id} && s'.done == s.done + {j.id}
          && s'.lost == s.lost
    case Raised(j) =>
      && s'.runs == s.runs + [j.id] && s'.returned == s.returned && s'.done == s.done
      && s'.lost == if Once(c, j) then s.lost + {j.id} else s.lost
  }

  ghost predicate Leads(c: Config, s: State, s': State) {
    exists states: seq<State>, steps: seq<Step> ::
      Path(c, states, steps) && states[0] == s && states[|steps|] == s'
  }

  lemma LeadsOn(c: Config, s: State, middle: State, s': State, step: Step)
    requires (s == middle || Leads(c, s, middle)) && Next(c, middle, s', step)
    ensures Leads(c, s, s')
  {
    if s == middle {
      assert Path(c, [s, s'], [step]);
    } else {
      var states: seq<State>, steps: seq<Step> :|
        Path(c, states, steps) && states[0] == s && states[|steps|] == middle;
      var states', steps' := states + [s'], steps + [step];
      assert forall i | 0 <= i < |steps'| :: Next(c, states'[i], states'[i + 1], steps'[i]);
      assert Path(c, states', steps') && states'[|steps'|] == s';
    }
  }

  lemma StartLeads(c: Config, s: State, claimed: State, running: State, claim: Step, id: nat)
    requires Next(c, s, claimed, claim) && Next(c, claimed, running, Start(id))
    ensures Leads(c, s, running)
  {
    LeadsOn(c, s, s, claimed, claim);
    LeadsOn(c, s, claimed, running, Start(id));
  }

  /** The state in which the only worker has claimed a job and started it. */
  function Started(c: Config, s: State, job: Job): State {
    s.(claims := map[job.id := Claimed(0, job, Running)], runs := s.runs + [job.id],
       rows := if Once(c, job) then s.rows - {job.id} else s.rows)
  }

  lemma ClaimAlone(c: Config, s: State, q: Query, job: Job)
    requires s.claims == map[] && job.id in s.rows && s.rows[job.id] == job && First(s.rows, q, job.id)
    requires forall id | id in s.rows :: s.rows[id].id == id
    ensures Leads(c, s, Started(c, s, job))
  {
    var id := job.id;
    var claimed := s.(claims := map[id := Claimed(0, job, Fetched)],
                      rows := if Once(c, job) then s.rows - {id} else s.rows);
    assert Next(c, s, claimed, Claim(0, id, q));
    StartLeads(c, s, claimed, Started(c, s, job), Claim(0, id, q), id);
  }

  /** The state after a job that runs alone returned or raised. */
  function Finish(c: Config, running: State, job: Job, finishes: bool): State {
    var id := job.id;
    if !finishes then running.(claims := map[], lost := if Once(c, job) then running.lost + {id} else running.lost)
    else running.(claims := map[], rows := running.rows - {id}, returned := running.returned + {id},
                  done := running.done + {id})
  }

  lemma FinishLeads(c: Config, s: State, running: State, s': State, job: Job, finishes: bool)
    requires Leads(c, s, running) && running.claims == map[job.id := Claimed(0, job, Running)]
    requires Once(c, job) ==> job.id !in running.rows
    requires s' == Finish(c, running, job, finishes)
    ensures Leads(c, s, s')
  {
    var id := job.id;
    assert running.claims - {id} == map[];
    if !finishes {
      LeadsOn(c, s, running, s', Fail(id));
    } else if Once(c, job) {
      assert running.rows - {id} == running.rows;
      LeadsOn(c, s, running, s', Return(id));
    } else {
      var returned := running.(claims := map[id := Claimed(0, job, Returned)], returned := running.returned + {id});
      assert returned.claims - {id} == map[];
      LeadsOn(c, s, running, returned, Return(id));
      LeadsOn(c, s, returned, s', Commit(id));
    }
  }

  /** Running one job, as a worker does it by itself, is a sequence of the steps above. */
  lemma RunOnceIsSteps(c: Config, s: State, q: Query, rows: map<nat, Job>, outcome: Outcome) returns (s': State)
    requires s.claims == map[] && (forall id | id in s.rows :: s.rows[id].id == id)
    requires RunsOnce(s.rows, rows, q, outcome, q.queue in c.onceQueues)
    ensures Leads(c, s, s')
    ensures RanAlone(c, s, s', outcome) && s'.rows == rows && s'.claims == map[]
  {
    if outcome == Nothing {
      assert Path(c, [s], []);
      return s;
    }
    var job := outcome.job;
    ClaimAlone(c, s, q, job);
    s' := Finish(c, Started(c, s, job), job, outcome.Ran?);
    FinishLeads(c, s, Started(c, s, job), s', job, outcome.Ran?);
  }
}
