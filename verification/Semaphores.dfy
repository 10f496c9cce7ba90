/** The counting semaphore kept under one Redis key, and its users interleaved command by command. */
module Semaphores {
  import opened Basics

  // ---------- one user at a time ----------

  class Redis {
    var value: Option<int>

    constructor ()
      ensures value == None
    {
      value := None;
    }

    method SetIfAbsent(n: int)
      modifies this
      ensures value == if old(value) == None then Some(n) else old(value)
    {
      if value == None {
        value := Some(n);
      }
    }

    /** INCR and DECR start from zero if there is no key. */
    method Add(n: int) returns (result: int)
      modifies this
      ensures value == Some(result) && result == Amount(old(value)) + n
    {
      result := (if value == None then 0 else value.value) + n;
      value := Some(result);
    }

    method Delete()
      modifies this
      ensures value == None
    {
      value := None;
    }

    /** Succeeds exactly when the count is below the limit, and counts one more exactly when it succeeds. */
    method AcquireSemaphore(limit: int) returns (acquired: bool)
      modifies this
      ensures Acquired(old(value), value, limit, acquired)
      ensures acquired <==> if old(value) == None then 0 < limit else old(value).value < limit
      ensures value.Some? && value.value == (if old(value) == None then 0 else old(value).value)
                                            + if acquired then 1 else 0
    {
      var current := value;
      if current == None {
        SetIfAbsent(0);
      }
      var count := Add(1);
      if count > limit {
        count := Add(-1);
        return false;
      }
      acquired := true;
    }

    method ReleaseSemaphore()
      modifies this
      ensures Released(old(value), value)
      ensures old(value).Some? && old(value).value > 1 ==> value == Some(old(value).value - 1)
      ensures old(value) == None || old(value).value <= 1 ==> value == None
    {
      var _ := Add(-1);
      var current := value;
      if current.Some? && current.value <= 0 {
        Delete();
      }
    }
  }

  /** A missing key reads as zero. */
  function Amount(value: Option<int>): int {
    if value == None then 0 else value.value
  }

  predicate Acquired(before: Option<int>, after: Option<int>, limit: int, acquired: bool) {
    (acquired <==> Amount(before) < limit) && after == Some(Amount(before) + if acquired then 1 else 0)
  }

  predicate Released(before: Option<int>, after: Option<int>) {
    after == if Amount(before) - 1 <= 0 then None else Some(Amount(before) - 1)
  }

  // ---------- all users at once ----------

  /** Where a user stands: it found no key and will set it, it will increment, it incremented beyond the limit,
      it holds a permit, it has decremented to release, or it saw zero and will delete. */
  datatype Place = Idle | Unset | Ready | Over | Holding | Decremented | Deleting

  datatype State = State(value: Option<int>, places: map<nat, Place>)

  /** Whether the key is only set if absent, whether release is one step, and whether the key can expire while it is
      used. */
  datatype Config = Config(limit: int, nx: bool, atomicRelease: bool, expires: bool)

  function At(s: State, user: nat): Place {
    if user in s.places then s.places[user] else Idle
  }

  function Users(s: State, place: Place): set<nat> {
    set u | u in s.places && s.places[u] == place
  }

  datatype Command = Get(user: nat) | Set(user: nat) | Incr(user: nat) | Decr(user: nat) | Release(user: nat)
                   | Check(user: nat) | Delete(user: nat) | Expire

  ghost predicate Next(c: Config, s: State, s': State, command: Command) {
    match command
    case Get(u) => At(s, u) == Idle && s' == s.(places := s.places[u := if s.value == None then Unset else Ready])
    case Set(u) =>
      && At(s, u) == Unset
      && s' == State(if s.value == None || !c.nx then Some(0) else s.value, s.places[u := Ready])
    case Incr(u) =>
      && At(s, u) == Ready
      && s' == State(Some(Amount(s.value) + 1), s.places[u := if Amount(s.value) + 1 > c.limit then Over else Holding])
    case Decr(u) => At(s, u) == Over && s' == State(Some(Amount(s.value) - 1), s.places[u := Idle])
    case Release(u) =>
      && At(s, u) == Holding
      && s' == if c.atomicRelease then
                 State(if Amount(s.value) - 1 <= 0 then None else Some(Amount(s.value) - 1), s.places[u := Idle])
               else State(Some(Amount(s.value) - 1), s.places[u := Decremented])
    case Check(u) =>
      && At(s, u) == Decremented
      && s' == s.(places := s.places[u := if s.value.Some? && s.value.value <= 0 then Deleting else Idle])
    case Delete(u) => At(s, u) == Deleting && s' == State(None, s.places[u := Idle])
    case Expire => (c.expires || (Users(s, Holding) == {} && Users(s, Over) == {})) && s' == s.(value := None)
  }

  ghost predicate Path(c: Config, states: seq<State>, commands: seq<Command>) {
    |states| == |commands| + 1 && forall i | 0 <= i < |commands| :: Next(c, states[i], states[i + 1], commands[i])
  }

  ghost predicate Run(c: Config, states: seq<State>, commands: seq<Command>) {
    Path(c, states, commands) && states[0] == State(None, map[])
  }

  ghost predicate Reachable(c: Config, s: State) {
    exists states, commands :: Run(c, states, commands) && states[|commands|] == s
  }

  // ---------- the invariant ----------

  ghost predicate Counted(s: State) {
    && Amount(s.value) == |Users(s, Holding)| + |Users(s, Over)|
    && Users(s, Decremented) == {} && Users(s, Deleting) == {}
  }

  lemma Moved(s: State, user: nat, to: Place, place: Place)
    ensures var s' := s.(places := s.places[user := to]);
            |Users(s', place)| == |Users(s, place)| + (if to == place then 1 else 0)
                                  - if user in s.places && s.places[user] == place then 1 else 0
  {
    var s' := s.(places := s.places[user := to]);
    assert Users(s', place) == if to == place then Users(s, place) + {user} else Users(s, place) - {user};
  }

  /** Deleting the key at zero or below only ever deletes an exact zero. */
  lemma DeletesExactZero(c: Config, s: State, s': State, user: nat)
    requires Counted(s) && c.atomicRelease && Next(c, s, s', Release(user)) && s'.value == None
    ensures Amount(s.value) - 1 == 0
  {
    assert user in Users(s, Holding);
    assert |Users(s, Holding)| > 0;
  }

  lemma NextCounted(c: Config, s: State, s': State, command: Command)
    requires c.nx && c.atomicRelease && !c.expires
    requires Counted(s) && (|Users(s, Holding)| <= c.limit || Users(s, Holding) == {}) && Next(c, s, s', command)
    ensures Counted(s') && (|Users(s', Holding)| <= c.limit || Users(s', Holding) == {})
  {
    if command.Expire? {
      assert forall p :: Users(s', p) == Users(s, p);
    } else {
      var u := command.user;
      assert u in Users(s, At(s, u)) || At(s, u) == Idle;
      assert s' == s.(places := s.places[u := s'.places[u]]).(value := s'.value);
      forall p: Place
        ensures |Users(s', p)| == |Users(s, p)| + (if s'.places[u] == p then 1 else 0)
                                  - if u in s.places && s.places[u] == p then 1 else 0
      {
        Moved(s, u, s'.places[u], p);
        assert Users(s', p) == Users(s.(places := s.places[u := s'.places[u]]), p);
      }
    }
  }

  /** Safety in every interleaving: the counter is the number of holders plus those that overshot and have not yet
      taken it back, and the holders never exceed the limit. */
  lemma {:induction false} SemaphoreSafe(c: Config, states: seq<State>, commands: seq<Command>)
    requires c.nx && c.atomicRelease && !c.expires && Run(c, states, commands)
    ensures var s := states[|commands|]; Counted(s) && (|Users(s, Holding)| <= c.limit || Users(s, Holding) == {})
    decreases |commands|
  {
    var n := |commands| - 1;
    if n >= 0 {
      assert Run(c, states[..n + 1], commands[..n]) by {
        assert forall i | 0 <= i < n :: Next(c, states[i], states[i + 1], commands[i]);
      }
      SemaphoreSafe(c, states[..n + 1], commands[..n]);
      NextCounted(c, states[n], states[n + 1], commands[n]);
    }
  }

  // ---------- one user among them ----------

  /** Acquiring, as a user does it by itself, is a sequence of these commands. */
  lemma AcquireIsCommands(c: Config, s: State, user: nat, after: Option<int>, acquired: bool)
    requires At(s, user) == Idle && Acquired(s.value, after, c.limit, acquired)
    ensures exists states, commands :: Path(c, states, commands) && states[0] == s
              && states[|commands|] == State(after, s.places[user := if acquired then Holding else Idle])
  {
    var got := s.(places := s.places[user := if s.value == None then Unset else Ready]);
    var ready := State(Some(Amount(s.value)), s.places[user := Ready]);
    var counted := State(Some(Amount(s.value) + 1), s.places[user := if acquired then Holding else Over]);
    var end := State(after, s.places[user := if acquired then Holding else Idle]);
    assert got.places[user := Ready] == ready.places && counted.places[user := Idle] == s.places[user := Idle];
    assert Next(c, s, got, Get(user)) && Next(c, ready, counted, Incr(user));
    assert if s.value == None then Next(c, got, ready, Set(user)) else got == ready;
    assert if acquired then counted == end else Next(c, counted, end, Decr(user));
    var first := if s.value == None then [s, got] else [s];
    var names := if s.value == None then [Get(user), Set(user)] else [Get(user)];
    if acquired {
      assert Path(c, first + [ready, counted], names + [Incr(user)]);
    } else {
      assert Path(c, first + [ready, counted, end], names + [Incr(user), Decr(user)]);
    }
  }

  /** Releasing is one of them if it is one step, and three or fewer otherwise. */
  lemma ReleaseIsCommands(c: Config, s: State, user: nat, after: Option<int>)
    requires At(s, user) == Holding && Released(s.value, after)
    ensures exists states, commands :: Path(c, states, commands) && states[0] == s
              && states[|commands|] == State(after, s.places[user := Idle])
  {
    var end := State(after, s.places[user := Idle]);
    if c.atomicRelease {
      assert Path(c, [s, end], [Release(user)]);
    } else {
      var less := State(Some(Amount(s.value) - 1), s.places[user := Decremented]);
      if Amount(s.value) - 1 <= 0 {
        var seen := less.(places := s.places[user := Deleting]);
        assert less.places[user := Deleting] == seen.places && seen.places[user := Idle] == end.places;
        assert Path(c, [s, less, seen, end], [Release(user), Check(user), Delete(user)]);
      } else {
        assert less.places[user := Idle] == end.places;
        assert Path(c, [s, less, end], [Release(user), Check(user)]);
      }
    }
  }

  // ---------- what each assumption is for ----------

  lemma Step(c: Config, s: State, s': State, command: Command)
    requires Reachable(c, s) && Next(c, s, s', command)
    ensures Reachable(c, s')
  {
    var states, commands :| Run(c, states, commands) && states[|commands|] == s;
    var states', commands' := states + [s'], commands + [command];
    assert forall i | 0 <= i < |commands'| :: Next(c, states'[i], states'[i + 1], commands'[i]);
    assert Run(c, states', commands') && states'[|commands'|] == s';
  }

  /** Users 1 to n have all got a permit. */
  function Full(s: State, n: nat): State {
    if n == 0 then s else State(Some(n), Full(s, n - 1).places[n := Holding])
  }

  lemma {:induction false} FullPlaces(s: State, n: nat, user: nat)
    ensures At(Full(s, n), user) == if 1 <= user <= n then Holding else At(s, user)
    ensures n > 0 ==> Full(s, n).value == Some(n)
  {
    if n > 0 {
      FullPlaces(s, n - 1, user);
    }
  }

  lemma AllHold(s: State, n: nat)
    ensures forall u: nat | 1 <= u <= n :: u in Full(s, n).places && Full(s, n).places[u] == Holding
    ensures At(Full(s, n), 0) == At(s, 0) && At(Full(s, n), n + 1) == At(s, n + 1)
    ensures n > 0 ==> Full(s, n).value == Some(n)
  {
    forall u: nat ensures At(Full(s, n), u) == if 1 <= u <= n then Holding else At(s, u) {
      FullPlaces(s, n, u);
    }
    forall u: nat | 1 <= u <= n ensures u in Full(s, n).places && Full(s, n).places[u] == Holding {
      assert At(Full(s, n), u) == Holding;
    }
    FullPlaces(s, n, 0);
  }

  /** Whoever starts below the limit with nobody in the way gets a permit. */
  lemma Acquires(c: Config, s: State, user: nat)
    requires Reachable(c, s) && At(s, user) == Idle && Amount(s.value) < c.limit
    ensures Reachable(c, State(Some(Amount(s.value) + 1), s.places[user := Holding]))
  {
    var got := s.(places := s.places[user := if s.value == None then Unset else Ready]);
    Step(c, s, got, Get(user));
    var ready := State(Some(Amount(s.value)), s.places[user := Ready]);
    if s.value == None {
      assert got.places[user := Ready] == ready.places;
      Step(c, got, ready, Set(user));
    }
    assert ready.places[user := Holding] == s.places[user := Holding];
    Step(c, ready, State(Some(Amount(s.value) + 1), s.places[user := Holding]), Incr(user));
  }

  lemma {:induction false} FillsUp(c: Config, s: State, n: nat)
    requires Reachable(c, s) && n <= c.limit && Amount(s.value) == 0 && forall u: nat | 1 <= u <= n :: At(s, u) == Idle
    ensures Reachable(c, Full(s, n))
  {
    if n > 0 {
      FillsUp(c, s, n - 1);
      AllHold(s, n - 1);
      Acquires(c, Full(s, n - 1), n);
    }
  }

  lemma {:induction false} TooMany(holders: set<nat>, limit: nat)
    requires forall u: nat | u <= limit :: u in holders
    ensures |holders| > limit
  {
    if limit > 0 {
      TooMany(holders - {limit}, limit - 1);
    }
  }

  ghost predicate Safe(c: Config) {
    forall s | Reachable(c, s) :: |Users(s, Holding)| <= c.limit
  }

  lemma Starts(c: Config)
    ensures Reachable(c, State(None, map[]))
  {
    assert Run(c, [State(None, map[])], []);
  }

  /** Without the flag, a late initialiser erases the increments of everyone else. */
  lemma UnsafeWithoutNx(c: Config)
    requires c.limit >= 1 && !c.nx
    ensures !Safe(c)
  {
    Starts(c);
    var first := State(None, map[0 := Unset]);
    Step(c, State(None, map[]), first, Get(0));
    FillsUp(c, first, c.limit);
    AllHold(first, c.limit);
    var full := Full(first, c.limit);
    var reset := State(Some(0), full.places[0 := Ready]);
    Step(c, full, reset, Set(0));
    var last := State(Some(1), reset.places[0 := Holding]);
    Step(c, reset, last, Incr(0));
    TooMany(Users(last, Holding), c.limit);
  }

  /** If the key expires while it is used, the count starts again. */
  lemma UnsafeWithExpiry(c: Config)
    requires c.limit >= 1 && c.expires
    ensures !Safe(c)
  {
    Starts(c);
    var start := State(None, map[]);
    FillsUp(c, start, c.limit);
    AllHold(start, c.limit);
    var expired := Full(start, c.limit).(value := None);
    Step(c, Full(start, c.limit), expired, Expire);
    Acquires(c, expired, 0);
    TooMany(Users(State(Some(1), expired.places[0 := Holding]), Holding), c.limit);
  }

  lemma ReachDeleting(c: Config, user: nat)
    requires c.limit >= 1 && !c.atomicRelease
    ensures Reachable(c, State(Some(0), map[user := Deleting]))
  {
    Starts(c);
    Acquires(c, State(None, map[]), user);
    var held := State(Some(1), map[user := Holding]);
    var released := State(Some(0), map[user := Decremented]);
    Step(c, held, released, Release(user));
    Step(c, released, State(Some(0), map[user := Deleting]), Check(user));
  }

  /** If others acquire between a release's reading of zero and its deletion, their permits are forgotten. */
  lemma UnsafeWithSlowRelease(c: Config)
    requires c.limit >= 1 && !c.atomicRelease
    ensures !Safe(c)
  {
    var slow := c.limit + 1;
    ReachDeleting(c, slow);
    var deleting := State(Some(0), map[slow := Deleting]);
    FillsUp(c, deleting, c.limit);
    AllHold(deleting, c.limit);
    var full := Full(deleting, c.limit);
    var deleted := State(None, full.places[slow := Idle]);
    Step(c, full, deleted, Delete(slow));
    Acquires(c, deleted, 0);
    TooMany(Users(State(Some(1), deleted.places[0 := Holding]), Holding), c.limit);
  }

  /** The limit is kept in every interleaving exactly when the key is set only if absent, release is one step,
      and the key does not expire while it is used. */
  lemma SafeExactlyWhen(c: Config)
    requires c.limit >= 1
    ensures Safe(c) <==> c.nx && c.atomicRelease && !c.expires
  {
    if !c.nx {
      UnsafeWithoutNx(c);
    } else if c.expires {
      UnsafeWithExpiry(c);
    } else if !c.atomicRelease {
      UnsafeWithSlowRelease(c);
    } else {
      forall s | Reachable(c, s) ensures |Users(s, Holding)| <= c.limit {
        var states, commands :| Run(c, states, commands) && states[|commands|] == s;
        SemaphoreSafe(c, states, commands);
      }
    }
  }
}
