/** The job table and one worker of a queue on it. */
module Jobs {
  import opened Basics

  datatype Job = Job(id: nat, queue: string, tenant: nat, task: string, priority: int, createdAt: int, executeAt: int,
                     identifier: Option<string>)

  /** Which jobs a worker asks for. */
  datatype Query = Query(queue: string, tenant: nat, tasks: set<string>, exclude: set<nat>, now: int)

  predicate Due(q: Query, job: Job) {
    job.executeAt <= q.now && job.id !in q.exclude && job.queue == q.queue && job.tenant == q.tenant
        && job.task in q.tasks
  }

  /** Higher priorities first, then older jobs. */
  predicate Before(a: Job, b: Job) {
    a.priority > b.priority || (a.priority == b.priority && a.createdAt < b.createdAt)
  }

  function DueIds(rows: map<nat, Job>, q: Query): set<nat> {
    set id | id in rows && Due(q, rows[id])
  }

  /** A job the query may pick: due, and no other due job comes before it. */
  predicate First(rows: map<nat, Job>, q: Query, id: nat) {
    id in DueIds(rows, q) && forall x | x in DueIds(rows, q) :: !Before(rows[x], rows[id])
  }

  lemma {:induction false} FirstExists(rows: map<nat, Job>, ids: set<nat>)
    requires ids != {} && ids <= rows.Keys
    ensures exists id :: id in ids && forall x | x in ids :: !Before(rows[x], rows[id])
    decreases |ids|
  {
    var y :| y in ids;
    if ids == {y} {
      assert forall x | x in ids :: !Before(rows[x], rows[y]);
    } else {
      FirstExists(rows, ids - {y});
      var best :| best in ids - {y} && forall x | x in ids - {y} :: !Before(rows[x], rows[best]);
      var id := if Before(rows[y], rows[best]) then y else best;
      assert forall x | x in ids :: x == y || x in ids - {y};
      assert id in ids && forall x | x in ids :: !Before(rows[x], rows[id]);
    }
  }

  /** The identifier all jobs of one heartbeat task share. */
  function Identifier(queue: string, task: string): string {
    queue + "_" + task
  }

  ghost predicate UniqueIdentifiers(rows: map<nat, Job>) {
    forall a, b | a in rows && b in rows && rows[a].identifier.Some? && rows[a].identifier == rows[b].identifier ::
        a == b
  }

  class JobTable {
    var rows: map<nat, Job>
    var nextId: nat

    ghost predicate Valid()
      reads this
    {
      (forall id | id in rows :: rows[id].id == id && id < nextId) && UniqueIdentifiers(rows)
    }

    constructor ()
      ensures Valid() && rows == map[]
    {
      rows, nextId := map[], 0;
    }

    method DequeueTenant(q: Query) returns (job: Option<Job>)
      requires Valid()
      modifies `rows
      ensures Valid()
      ensures match job
              case None => rows == old(rows) && DueIds(rows, q) == {}
              case Some(j) =>
                && j.id in old(rows) && j == old(rows)[j.id] && First(old(rows), q, j.id)
                && rows == old(rows) - {j.id}
      ensures job.Some? ==>
                && job.value.executeAt <= q.now && job.value.id !in q.exclude && job.value.queue == q.queue
                && job.value.tenant == q.tenant && job.value.task in q.tasks
      // no other job it could have claimed has a higher priority, or the same and is older
      ensures forall id | id in old(rows) ::
                var x := old(rows)[id];
                x.executeAt <= q.now && x.id !in q.exclude && x.queue == q.queue && x.tenant == q.tenant
                && x.task in q.tasks ==>
                  && job.Some?
                  && (x.priority < job.value.priority
                      || (x.priority == job.value.priority && job.value.createdAt <= x.createdAt))
    {
      var due := DueIds(rows, q);
      assert forall id | id in rows && Due(q, rows[id]) :: id in due;
      if due == {} {
        return None;
      }
      FirstExists(rows, due);
      var id :| id in due && forall x | x in due :: !Before(rows[x], rows[id]);
      job := Some(rows[id]);
      rows := rows - {id};
    }

    /** The unique constraint on the identifier. */
    method Create(job: Job) returns (created: bool)
      requires Valid() && job.id == nextId
      modifies this
      ensures Valid()
      ensures created <==>
              job.identifier.None? || forall id | id in old(rows) :: old(rows)[id].identifier != job.identifier
      ensures rows == if created then old(rows)[job.id := job] else old(rows)
    {
      nextId := nextId + 1;
      if job.identifier.Some? && exists id :: id in rows && rows[id].identifier == job.identifier {
        return false;
      }
      rows := rows[job.id := job];
      created := true;
    }
  }

  datatype Outcome = Nothing | Ran(job: Job) | Raised(job: Job)

  /** What running one job does to the table. */
  ghost predicate RunsOnce(rows: map<nat, Job>, rows': map<nat, Job>, q: Query, outcome: Outcome, atMostOnce: bool) {
    match outcome
    case Nothing => rows' == rows && DueIds(rows, q) == {}
    case Ran(j) => j.id in rows && j == rows[j.id] && First(rows, q, j.id) && rows' == rows - {j.id}
    case Raised(j) =>
      && j.id in rows && j == rows[j.id] && First(rows, q, j.id)
      && rows' == if atMostOnce then rows - {j.id} else rows
  }

  class TenantQueue {
    const table: JobTable
    const queue: string
    const tenant: nat
    const tasks: set<string>
    const heartbeat: bool
    const atMostOnce: bool

    constructor (table: JobTable, queue: string, tenant: nat, tasks: set<string>, heartbeat: bool, atMostOnce: bool)
      ensures this.table == table && this.queue == queue && this.tenant == tenant && this.tasks == tasks
      ensures this.heartbeat == heartbeat && this.atMostOnce == atMostOnce
    {
      this.table, this.queue, this.tenant, this.tasks := table, queue, tenant, tasks;
      this.heartbeat, this.atMostOnce := heartbeat, atMostOnce;
    }

    function QueryAt(exclude: set<nat>, now: int): Query {
      Query(queue, tenant, tasks, exclude, now)
    }

    /** A task may return or raise; it leaves the job table alone. */
    method RunJob(job: Job) returns (returned: bool)
    {
      returned := *;
    }

    /** At most once: the claim is committed before the job runs. At least once: a job that raises is put back. */
    method RunOnce(exclude: set<nat>, now: int) returns (outcome: Outcome)
      requires table.Valid()
      modifies table`rows
      ensures table.Valid()
      ensures RunsOnce(old(table.rows), table.rows, QueryAt(exclude, now), outcome, atMostOnce)
      ensures !outcome.Nothing? ==>
                && outcome.job.queue == queue && outcome.job.tenant == tenant && outcome.job.task in tasks
                && outcome.job.executeAt <= now && outcome.job.id !in exclude
      ensures outcome.Nothing? ==> forall id | id in old(table.rows) ::
                var j := old(table.rows)[id];
                j.executeAt > now || j.id in exclude || j.queue != queue || j.tenant != tenant || j.task !in tasks
    {
      var before := table.rows;
      var job := table.DequeueTenant(QueryAt(exclude, now));
      match job {
        case None => outcome := Nothing;
        case Some(j) =>
          var returned := RunJob(j);
          if returned {
            outcome := Ran(j);
          } else {
            outcome := Raised(j);
            if !atMostOnce {
              table.rows := before;
            }
          }
      }
    }

    /** A job that raises is remembered. */
    method TryRun(failedIds: set<nat>, now: int) returns (outcome: Outcome, failed: set<nat>)
      requires table.Valid()
      modifies table`rows
      ensures table.Valid() && RunsOnce(old(table.rows), table.rows, QueryAt(failedIds, now), outcome, atMostOnce)
      ensures failed == if outcome.Raised? then failedIds + {outcome.job.id} else failedIds
    {
      outcome := RunOnce(failedIds, now);
      failed := if outcome.Raised? then failedIds + {outcome.job.id} else failedIds;
    }

    /** One worker runs what it can: it stops at the first job that raises, or when nothing is due. */
    method TryRunAll(now: int) returns (ghost ran: seq<nat>, ghost last: Outcome)
      requires table.Valid()
      modifies table`rows
      ensures table.Valid() && !last.Ran?
              && Worked(old(table.rows), table.rows, QueryAt({}, now), ran, last, atMostOnce)
    {
      var failedIds: set<nat> := {};
      ghost var rows, q := table.rows, QueryAt({}, now);
      ran := [];
      NothingRan(rows);
      var outcome;
      outcome, failedIds := TryRun(failedIds, now);
      WorksOn(rows, rows, table.rows, q, [], outcome, atMostOnce);
      while outcome.Ran?
        invariant table.Valid() && Worked(rows, table.rows, q, ran, outcome, atMostOnce)
        invariant !outcome.Raised? ==> failedIds == {}
        decreases outcome.Ran?, |table.rows|
      {
        ghost var before := table.rows;
        ran := ran + [outcome.job.id];
        outcome, failedIds := TryRun(failedIds, now);
        WorksOn(rows, before, table.rows, q, ran, outcome, atMostOnce);
      }
      last := outcome;
    }

    /** A heartbeat task is queued only if none is. */
    method Enqueue(task: string, createdAt: int, executeAt: int, priority: int) returns (job: Option<Job>)
      requires table.Valid() && task in tasks
      modifies table
      ensures table.Valid()
      ensures var identifier := Some(queue + "_" + task);
              var taken := heartbeat
                           && exists id :: id in old(table.rows) && old(table.rows)[id].identifier == identifier;
              if taken then job == None && table.rows == old(table.rows)
              else
                && job.Some? && job.value.id !in old(table.rows)
                && table.rows == old(table.rows)[job.value.id := job.value]
                && job.value == Job(job.value.id, queue, tenant, task, priority, createdAt, executeAt,
                                    if heartbeat then identifier else None)
    {
      var should := true;
      var identifier := None;
      if heartbeat {
        identifier := Some(Identifier(queue, task));
        should := !exists id ::
            id in table.rows && table.rows[id].identifier == identifier && table.rows[id].tenant == tenant;
      }
      job := None;
      if should {
        var wanted := Job(table.nextId, queue, tenant, task, priority, createdAt, executeAt, identifier);
        var created := table.Create(wanted);
        if created {
          job := Some(wanted);
        }
      }
    }
  }

  // ---------- the order of one worker ----------

  function Without(rows: map<nat, Job>, ids: seq<nat>): map<nat, Job> {
    map id | id in rows && id !in ids :: rows[id]
  }

  /** Each job in turn was one the query could pick from what the ones before it left. */
  ghost predicate Schedule(rows: map<nat, Job>, q: Query, ids: seq<nat>) {
    forall i | 0 <= i < |ids| :: First(Without(rows, ids[..i]), q, ids[i])
  }

  /** The table after some jobs ran, and then one more was looked for. */
  ghost predicate Worked(rows: map<nat, Job>, rows': map<nat, Job>, q: Query, ran: seq<nat>, last: Outcome,
                         atMostOnce: bool)
  {
    && Schedule(rows, q, ran)
    && match last
       case Nothing => rows' == Without(rows, ran) && DueIds(rows', q) == {}
       case Ran(j) => rows' == Without(rows, ran + [j.id]) && Schedule(rows, q, ran + [j.id])
       case Raised(j) =>
         rows' == Without(rows, if atMostOnce then ran + [j.id] else ran) && Schedule(rows, q, ran + [j.id])
  }

  lemma NothingRan(rows: map<nat, Job>)
    ensures Without(rows, []) == rows
  {
  }

  lemma WorksOn(rows: map<nat, Job>, before: map<nat, Job>, after: map<nat, Job>, q: Query, ran: seq<nat>,
                outcome: Outcome, atMostOnce: bool)
    requires before == Without(rows, ran) && Schedule(rows, q, ran) && RunsOnce(before, after, q, outcome, atMostOnce)
    ensures Worked(rows, after, q, ran, outcome, atMostOnce)
  {
    if !outcome.Nothing? {
      var id := outcome.job.id;
      assert Without(rows, ran + [id]) == before - {id};
      forall i | 0 <= i <= |ran| ensures First(Without(rows, (ran + [id])[..i]), q, (ran + [id])[i]) {
        assert (ran + [id])[..i] == ran[..i] && ran[..|ran|] == ran;
        assert i < |ran| ==> First(Without(rows, ran[..i]), q, ran[i]);
      }
    }
  }

  /** The jobs of a worker are due, ascend by priority and age, are never repeated, and come before none they should
      follow. */
  lemma ScheduleOrder(rows: map<nat, Job>, q: Query, ids: seq<nat>)
    requires Schedule(rows, q, ids)
    ensures forall i | 0 <= i < |ids| :: ids[i] in DueIds(rows, q)
    ensures forall i, j | 0 <= i < j < |ids| :: ids[i] != ids[j] && !Before(rows[ids[j]], rows[ids[i]])
    ensures forall i, x | 0 <= i < |ids| && x in DueIds(rows, q) && x !in ids :: !Before(rows[x], rows[ids[i]])
  {
    forall i | 0 <= i < |ids| ensures ids[i] in DueIds(rows, q) {
      assert First(Without(rows, ids[..i]), q, ids[i]);
    }
    forall i, j | 0 <= i < j < |ids| ensures ids[i] != ids[j] && !Before(rows[ids[j]], rows[ids[i]]) {
      assert First(Without(rows, ids[..i]), q, ids[i]) && First(Without(rows, ids[..j]), q, ids[j]);
      assert ids[..j][i] == ids[i] && forall k | 0 <= k < i :: ids[..j][k] == ids[..i][k];
      assert ids[j] !in ids[..j] && forall x | x in ids[..i] :: x in ids[..j];
      assert ids[j] in DueIds(Without(rows, ids[..i]), q);
    }
    forall i, x | 0 <= i < |ids| && x in DueIds(rows, q) && x !in ids ensures !Before(rows[x], rows[ids[i]]) {
      assert First(Without(rows, ids[..i]), q, ids[i]) && x !in ids[..i];
      assert x in DueIds(Without(rows, ids[..i]), q);
    }
  }

  /** In the order of a worker priorities never rise, and among equal ones the times of creation never fall; each job
      is due, and none that is due and was not run should have come before it. */
  lemma ScheduleByPriority(rows: map<nat, Job>, q: Query, ids: seq<nat>)
    requires Schedule(rows, q, ids)
    ensures forall i | 0 <= i < |ids| ::
              && ids[i] in rows && rows[ids[i]].executeAt <= q.now && rows[ids[i]].queue == q.queue
              && rows[ids[i]].tenant == q.tenant && rows[ids[i]].task in q.tasks
    ensures forall i, j | 0 <= i < j < |ids| ::
              var a, b := rows[ids[i]], rows[ids[j]];
              a.priority > b.priority || (a.priority == b.priority && a.createdAt <= b.createdAt)
    ensures forall i, x | 0 <= i < |ids| && x in rows && x !in ids && rows[x].executeAt <= q.now
                          && rows[x].id !in q.exclude && rows[x].queue == q.queue && rows[x].tenant == q.tenant
                          && rows[x].task in q.tasks ::
              var a := rows[ids[i]];
              a.priority > rows[x].priority || (a.priority == rows[x].priority && a.createdAt <= rows[x].createdAt)
  {
    ScheduleOrder(rows, q, ids);
    assert forall x | x in rows && Due(q, rows[x]) :: x in DueIds(rows, q);
  }

  /** Two tasks of a queue have different identifiers. */
  lemma IdentifiersDiffer(queue: string, a: string, b: string)
    requires Identifier(queue, a) == Identifier(queue, b)
    ensures a == b
  {
    var n := |queue + "_"|;
    assert Identifier(queue, a)[n..] == a && Identifier(queue, b)[n..] == b;
  }
}
