/** Consumer events: what one attempt, one sending call and one clean-up do to the event table. */
module Events {
  import opened Basics

  datatype State = New | Retry | Failed | Success
  datatype Mode = InOrder | InOrderNonBlocking
  datatype Health = Unknown | Unhealthy | Healthy | RateLimit

  datatype Event = Event(pointInTime: int, state: State, retries: nat, backoffCycles: nat, retriesInCycle: nat,
                         handleAt: Option<int>)

  datatype Settings = Settings(mode: Mode, retryMax: int, backoffEvery: int, backoffDelay: int)

  /** How the endpoint answers: a status below 400, status 429 with the Retry-After seconds if they
      can be read (section 10.2.3 of RFC 9110), or any other error, including none at all. */
  datatype Reply = Delivered | TooManyRequests(retryAfter: Option<int>) | Refused

  /** Ids are unique, so the sub clock, which comes after the id in the ordering, never decides. */
  datatype Key = Key(pointInTime: int, id: nat)

  predicate KeyBefore(a: Key, b: Key) {
    a.pointInTime < b.pointInTime || (a.pointInTime == b.pointInTime && a.id < b.id)
  }

  /** One request to the endpoint: the backoff cycle it was made in, its answer, when it began and
      ended, and how many events had arrived when its call took its list of events. */
  datatype Attempt = Attempt(key: Key, cycle: nat, reply: Reply, started: int, finished: int, seen: nat)

  datatype World = World(rows: map<nat, Event>, now: int, log: seq<Attempt>, arrived: seq<Key>)

  predicate Terminal(e: Event) {
    e.state == Failed || e.state == Success
  }

  function KeyOf(rows: map<nat, Event>, id: nat): Key
    requires id in rows
  {
    Key(rows[id].pointInTime, id)
  }

  // ---------- one event ----------

  predicate Due(e: Event, now: int) {
    e.handleAt.Some? ==> e.handleAt.value <= now
  }

  /** A due event that used up its cycle starts the next one. */
  function Begin(s: Settings, e: Event): Event {
    if e.handleAt.Some? && e.retriesInCycle >= s.backoffEvery then
      e.(backoffCycles := e.backoffCycles + 1, retriesInCycle := 0)
    else
      e
  }

  function HandleAtAfter(s: Settings, e: Event, reply: Reply, now: int): Option<int> {
    match reply
    case TooManyRequests(Some(seconds)) => Some(now + seconds)
    case TooManyRequests(None) => Some(now + s.backoffDelay)
    case _ => if e.retriesInCycle >= s.backoffEvery then Some(now + s.backoffDelay) else e.handleAt
  }

  /** The event after a failed attempt. */
  function Fails(s: Settings, e: Event, reply: Reply, now: int): Event {
    var b := Begin(s, e);
    var counted := b.(retries := b.retries + 1, retriesInCycle := b.retriesInCycle + 1);
    counted.(handleAt := HandleAtAfter(s, counted, reply, now),
             state := if s.retryMax > 0 && counted.retries > s.retryMax then Failed else Retry)
  }

  function Succeeds(s: Settings, e: Event): Event {
    Begin(s, e).(state := Success)
  }

  // ---------- the order in which a call looks at events ----------

  function Pending(rows: map<nat, Event>): set<nat> {
    set id | id in rows && !Terminal(rows[id])
  }

  predicate Before(mode: Mode, rows: map<nat, Event>, a: nat, b: nat)
    requires a in rows && b in rows
  {
    if mode == InOrderNonBlocking && rows[a].retries != rows[b].retries then rows[a].retries < rows[b].retries
    else KeyBefore(KeyOf(rows, a), KeyOf(rows, b))
  }

  predicate IsLeast(mode: Mode, rows: map<nat, Event>, ids: set<nat>, m: nat)
    requires ids <= rows.Keys
  {
    m in ids && forall x | x in ids && x != m :: Before(mode, rows, m, x)
  }

  lemma {:induction false} LeastExists(mode: Mode, rows: map<nat, Event>, ids: set<nat>)
    requires ids <= rows.Keys && ids != {}
    ensures exists m :: m in ids && IsLeast(mode, rows, ids, m)
    decreases |ids|
  {
    var x :| x in ids;
    if ids == {x} {
      assert IsLeast(mode, rows, ids, x);
    } else {
      LeastExists(mode, rows, ids - {x});
      var rest :| rest in ids - {x} && IsLeast(mode, rows, ids - {x}, rest);
      var m := if Before(mode, rows, rest, x) then rest else x;
      assert forall y | y in ids :: y == x || y in ids - {x};
      assert IsLeast(mode, rows, ids, m);
    }
  }

  function Sorted(mode: Mode, rows: map<nat, Event>, ids: set<nat>): seq<nat>
    requires ids <= rows.Keys
    decreases |ids|
  {
    if ids == {} then []
    else
      LeastExists(mode, rows, ids);
      var m :| m in ids && IsLeast(mode, rows, ids, m);
      [m] + Sorted(mode, rows, ids - {m})
  }

  /** The ids, each once, in order. */
  ghost predicate Lists(mode: Mode, rows: map<nat, Event>, ids: set<nat>, q: seq<nat>)
    requires ids <= rows.Keys
  {
    && |q| == |ids| && (forall id | id in ids :: id in q) && (forall i | 0 <= i < |q| :: q[i] in ids)
    && forall i, j | 0 <= i < j < |q| :: q[i] != q[j] && Before(mode, rows, q[i], q[j])
  }

  lemma InFront(mode: Mode, rows: map<nat, Event>, ids: set<nat>, m: nat, rest: seq<nat>)
    requires ids <= rows.Keys && IsLeast(mode, rows, ids, m) && Lists(mode, rows, ids - {m}, rest)
    ensures Lists(mode, rows, ids, [m] + rest)
  {
  }

  /** Sorting lists every id once, in order. */
  lemma {:induction false} SortedInOrder(mode: Mode, rows: map<nat, Event>, ids: set<nat>)
    requires ids <= rows.Keys
    ensures Lists(mode, rows, ids, Sorted(mode, rows, ids))
    decreases |ids|
  {
    if ids != {} {
      var m := Sorted(mode, rows, ids)[0];
      assert IsLeast(mode, rows, ids, m) && Sorted(mode, rows, ids) == [m] + Sorted(mode, rows, ids - {m});
      SortedInOrder(mode, rows, ids - {m});
      InFront(mode, rows, ids, m, Sorted(mode, rows, ids - {m}));
    }
  }

  /** The events a call finds, in the order it handles them. */
  function Queue(s: Settings, rows: map<nat, Event>): (q: seq<nat>)
    ensures Within(q, rows) && Distinct(q)
  {
    SortedInOrder(s.mode, rows, Pending(rows));
    Sorted(s.mode, rows, Pending(rows))
  }

  /** A call handles the NEW and RETRY events by point in time and then id, after the number of retries unless the
      consumer is strictly in order. */
  lemma QueueOrder(s: Settings, rows: map<nat, Event>)
    ensures forall x :: x in Queue(s, rows) <==> x in rows && (rows[x].state == New || rows[x].state == Retry)
    ensures forall i, j | 0 <= i < j < |Queue(s, rows)| ::
              var a, b := Queue(s, rows)[i], Queue(s, rows)[j];
              var earlier := rows[a].pointInTime < rows[b].pointInTime
                             || (rows[a].pointInTime == rows[b].pointInTime && a < b);
              if s.mode == InOrder then earlier
              else rows[a].retries < rows[b].retries || (rows[a].retries == rows[b].retries && earlier)
  {
    SortedInOrder(s.mode, rows, Pending(rows));
  }

  // ---------- attempts ----------

  /** A delivery. */
  function Deliver(s: Settings, w: World, id: nat, started: int): World
    requires id in w.rows
  {
    var e := Succeeds(s, w.rows[id]);
    w.(rows := w.rows[id := e], now := started,
       log := w.log + [Attempt(KeyOf(w.rows, id), e.backoffCycles, Delivered, started, started, |w.arrived|)])
  }

  /** A failed attempt. */
  function Miss(s: Settings, w: World, id: nat, started: int, reply: Reply, finished: int): World
    requires id in w.rows
  {
    var e := Fails(s, w.rows[id], reply, finished);
    w.(rows := w.rows[id := e], now := finished,
       log := w.log + [Attempt(KeyOf(w.rows, id), e.backoffCycles, reply, started, finished, |w.arrived|)])
  }

  predicate Within(ids: seq<nat>, rows: map<nat, Event>) {
    forall i | 0 <= i < |ids| :: ids[i] in rows
  }

  predicate Distinct(ids: seq<nat>) {
    forall i, j | 0 <= i < j < |ids| :: ids[i] != ids[j]
  }

  function LastTime(times: seq<int>, from: int): int {
    if times == [] then from else times[|times| - 1]
  }

  /** Deliveries of several events, one after the other. */
  function DeliverAll(s: Settings, w: World, ids: seq<nat>, times: seq<int>): World
    requires |ids| == |times| && Within(ids, w.rows)
  {
    World(map id | id in w.rows :: if id in ids then Succeeds(s, w.rows[id]) else w.rows[id],
          LastTime(times, w.now),
          w.log + seq(|ids|, i requires 0 <= i < |ids| =>
            Attempt(KeyOf(w.rows, ids[i]), Succeeds(s, w.rows[ids[i]]).backoffCycles, Delivered, times[i], times[i],
                    |w.arrived|)),
          w.arrived)
  }

  lemma DeliverOneMore(s: Settings, w: World, ids: seq<nat>, times: seq<int>, id: nat, t: int)
    requires |ids| == |times| && Within(ids, w.rows) && id in w.rows && id !in ids
    ensures DeliverAll(s, w, ids, times).rows[id] == w.rows[id]
    ensures Within(ids + [id], w.rows)
    ensures DeliverAll(s, w, ids + [id], times + [t]) == Deliver(s, DeliverAll(s, w, ids, times), id, t)
  {
  }

  // ---------- one call ----------

  /** Why a call stopped: nothing left, room used up, the next event not due yet, or a failure. */
  datatype Stop = Exhausted | Full | NotDue(checked: int) | Missed(started: int, reply: Reply, finished: int)

  /** The times of the deliveries a call made, and why it stopped. */
  datatype Call = Call(times: seq<int>, stop: Stop)

  ghost predicate Ascending(times: seq<int>, from: int) {
    (forall i | 0 <= i < |times| :: times[i] >= from) && forall i, j | 0 <= i < j < |times| :: times[i] <= times[j]
  }

  /** A call that has delivered the head of the queue so far, each event when it was due. */
  ghost predicate Delivering(s: Settings, w: World, w': World, q: seq<nat>, times: seq<int>)
    requires Within(q, w.rows)
  {
    && |times| <= |q|
    && w' == DeliverAll(s, w, q[..|times|], times)
    && Ascending(times, w.now)
    && (forall i | 0 <= i < |times| :: Due(w.rows[q[i]], times[i]))
  }

  lemma DeliverNext(s: Settings, w: World, w': World, q: seq<nat>, times: seq<int>, started: int)
    requires Within(q, w.rows) && Distinct(q) && |times| < |q| && Delivering(s, w, w', q, times)
    requires w'.now <= started && Due(w'.rows[q[|times|]], started)
    ensures Delivering(s, w, Deliver(s, w', q[|times|], started), q, times + [started])
  {
  }

  /** The ways out of a call, from the world its deliveries have led to. */
  ghost predicate StopsAt(s: Settings, w: World, w': World, q: seq<nat>, room: Option<nat>, call: Call, count: nat)
    requires Within(q, w.rows)
  {
    var d := |call.times|;
    match call.stop
    case Exhausted => d == |q| && count == d && w' == w
    case Full => room == Some(d) && d < |q| && count == d && w' == w
    case NotDue(checked) =>
      && d < |q| && (room.Some? ==> d < room.value) && count == d + 1
      && w.now <= checked && !Due(w.rows[q[d]], checked) && w' == w.(now := checked)
    case Missed(started, reply, finished) =>
      && d < |q| && (room.Some? ==> d < room.value) && count == d + 1
      && w.now <= started <= finished && Due(w.rows[q[d]], started) && reply != Delivered
      && w' == Miss(s, w, q[d], started, reply, finished)
  }

  /** A sending call: it delivers the head of the queue and changes at most one more event,
      the one whose attempt failed. */
  ghost predicate IsCall(s: Settings, w: World, sent: World, w': World, room: Option<nat>, call: Call, more: bool,
                         count: nat)
  {
    var q := Queue(s, w.rows);
    && Delivering(s, w, sent, q, call.times)
    && (room.Some? ==> |call.times| <= room.value)
    && StopsAt(s, sent, w', q, room, call, count)
    && more == call.stop.Full?
  }

  function HealthAfter(call: Call, health: Health): Health {
    match call.stop
    case Missed(_, TooManyRequests(_), _) => RateLimit
    case Missed(_, _, _) => Unhealthy
    case _ => if call.times == [] then health else Healthy
  }

  // ---------- clean-up ----------

  /** Thirty days, in seconds. */
  const RETENTION: int := 30 * 24 * 60 * 60

  predicate Old(w: World, id: nat)
    requires id in w.rows
  {
    Terminal(w.rows[id]) && w.rows[id].pointInTime <= w.now - RETENTION
  }

  function OldIds(w: World): set<nat> {
    set id | id in w.rows && Old(w, id)
  }
}
