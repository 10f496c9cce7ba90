/** The list diff of the client: two lists of identified entries become the operations
    that turn the first into the second. */
module ListDiff {
  import opened Basics

  /** Anything that carries an external id (or a name) next to its content. */
  datatype Entry<+P> = Entry(id: string, payload: P)

  datatype OpKind = Delete | Create | Update

  datatype Op<+P> = Op(kind: OpKind, id: string, payload: P)

  function At<K, V>(m: map<K, V>, k: K): Option<V> {
    if k in m then Some(m[k]) else None
  }

  /** A dict comprehension over a list: the last entry with an id wins. */
  function Dict<P>(entries: seq<Entry<P>>): map<string, P> {
    if entries == [] then map[]
    else
      var last := entries[|entries| - 1];
      Dict(entries[..|entries| - 1])[last.id := last.payload]
  }

  method BuildDict<P>(entries: seq<Entry<P>>) returns (m: map<string, P>)
    ensures m == Dict(entries)
  {
    m := map[];
    for i := 0 to |entries|
      invariant m == Dict(entries[..i])
    {
      assert entries[..i + 1][..i] == entries[..i];
      m := m[entries[i].id := entries[i].payload];
    }
    assert entries[..|entries|] == entries;
  }

  /** The ids of a list are the keys, and the last entry with an id wins. */
  lemma {:induction false} LastEntryWins<P>(entries: seq<Entry<P>>, i: nat)
    requires i < |entries| && forall j | i < j < |entries| :: entries[j].id != entries[i].id
    ensures entries[i].id in Dict(entries) && Dict(entries)[entries[i].id] == entries[i].payload
  {
    var n := |entries| - 1;
    if i < n {
      LastEntryWins(entries[..n], i);
    }
  }

  lemma {:induction false} OnlyListedIds<P>(entries: seq<Entry<P>>, id: string)
    requires id in Dict(entries)
    ensures exists i :: 0 <= i < |entries| && entries[i].id == id
  {
    var n := |entries| - 1;
    if entries[n].id != id {
      OnlyListedIds(entries[..n], id);
      var i :| 0 <= i < n && entries[..n][i].id == id;
      assert entries[i].id == id;
    }
  }

  // ---------- what a list of operations does ----------

  /** A request as the server answers it: the kind decides what must be there beforehand. */
  predicate Accepted<P>(m: map<string, P>, op: Op<P>) {
    op.kind == Create <==> op.id !in m
  }

  function Perform<P>(m: map<string, P>, op: Op<P>): map<string, P> {
    if op.kind == Delete then m - {op.id} else m[op.id := op.payload]
  }

  function PerformAll<P>(m: map<string, P>, ops: seq<Op<P>>): map<string, P> {
    if ops == [] then m
    else Perform(PerformAll(m, ops[..|ops| - 1]), ops[|ops| - 1])
  }

  predicate AllAccepted<P>(m: map<string, P>, ops: seq<Op<P>>) {
    ops == [] ||
    (AllAccepted(m, ops[..|ops| - 1]) && Accepted(PerformAll(m, ops[..|ops| - 1]), ops[|ops| - 1]))
  }

  /** An id occurs once, or twice as a deletion followed later by a creation. */
  ghost predicate WellShaped<P>(ops: seq<Op<P>>) {
    forall i, j | 0 <= i < j < |ops| && ops[i].id == ops[j].id :: ops[i].kind == Delete && ops[j].kind == Create
  }

  ghost predicate Writes<P(!new)>(ops: seq<Op<P>>, id: string) {
    exists op :: op in ops && op.id == id && op.kind != Delete
  }

  ghost predicate Drops<P(!new)>(ops: seq<Op<P>>, id: string) {
    exists op :: op in ops && op.id == id && op.kind == Delete
  }

  /** The value an id ends with, whatever the order the operations are listed in. */
  ghost predicate Settles<P(!new)>(ops: seq<Op<P>>, id: string, before: Option<P>, after: Option<P>) {
    && (forall op | op in ops && op.id == id && op.kind != Delete :: after == Some(op.payload))
    && (!Writes(ops, id) && Drops(ops, id) ==> after == None)
    && (!Writes(ops, id) && !Drops(ops, id) ==> after == before)
  }

  /** A list is well shaped if its two parts are, and a shared id is deleted in the first
      and created in the second. */
  lemma ShapedConcat<P>(a: seq<Op<P>>, b: seq<Op<P>>)
    ensures WellShaped(a + b) <==>
            WellShaped(a) && WellShaped(b) &&
            forall i, j | 0 <= i < |a| && 0 <= j < |b| && a[i].id == b[j].id ::
                a[i].kind == Delete && b[j].kind == Create
  {
    var all := a + b;
    if WellShaped(all) {
      assert forall i | 0 <= i < |a| :: all[i] == a[i];
      assert forall j | 0 <= j < |b| :: b[j] == all[|a| + j];
    }
  }

  lemma ShapedSnoc<P>(ops: seq<Op<P>>, op: Op<P>)
    ensures WellShaped(ops + [op]) <==>
            WellShaped(ops) && forall x | x in ops && x.id == op.id :: x.kind == Delete && op.kind == Create
  {
    ShapedConcat(ops, [op]);
    assert [op][0] == op;
    assert forall i | 0 <= i < |ops| :: ops[i] in ops;
  }

  /** Performing a well-shaped list leaves every id at the value the list settles it to. */
  lemma {:induction false} PerformAllSettles<P(!new)>(m: map<string, P>, ops: seq<Op<P>>, id: string)
    requires WellShaped(ops)
    ensures Settles(ops, id, At(m, id), At(PerformAll(m, ops), id))
  {
    if ops != [] {
      var n := |ops| - 1;
      var init, last := ops[..n], ops[n];
      PerformAllSettles(m, init, id);
      assert ops == init + [last];
      ShapedSnoc(init, last);
    }
  }

  /** Checked against the state before the list: a creation may follow a deletion of its own id. */
  ghost predicate Admissible<P(!new)>(m: map<string, P>, ops: seq<Op<P>>) {
    forall op | op in ops :: if op.kind == Create then op.id !in m || Drops(ops, op.id) else op.id in m
  }

  lemma AdmissibleSnoc<P(!new)>(m: map<string, P>, ops: seq<Op<P>>, last: Op<P>)
    requires WellShaped(ops + [last])
    ensures Admissible(m, ops + [last]) <==> Admissible(m, ops) && Accepted(PerformAll(m, ops), last)
  {
    ShapedSnoc(ops, last);
    PerformAllSettles(m, ops, last.id);
    assert !Writes(ops, last.id);
    assert forall op :: op in ops + [last] <==> op in ops || op == last;
    assert forall op | op in ops && op.kind == Create :: op.id != last.id;
    assert forall id | id != last.id :: Drops(ops + [last], id) <==> Drops(ops, id);
    assert last.kind == Create ==> (Drops(ops + [last], last.id) <==> Drops(ops, last.id));
    if Drops(ops, last.id) { assert last.kind == Create; }
  }

  /** The server accepts a well-shaped list, one request after the other, exactly when it is admissible. */
  lemma {:induction false} AcceptedInOrder<P(!new)>(m: map<string, P>, ops: seq<Op<P>>)
    requires WellShaped(ops)
    ensures AllAccepted(m, ops) <==> Admissible(m, ops)
  {
    if ops != [] {
      var n := |ops| - 1;
      assert ops == ops[..n] + [ops[n]];
      ShapedSnoc(ops[..n], ops[n]);
      AcceptedInOrder(m, ops[..n]);
      AdmissibleSnoc(m, ops[..n], ops[n]);
    }
  }

  lemma {:induction false} AcceptedAt<P>(m: map<string, P>, ops: seq<Op<P>>, j: nat)
    requires j < |ops|
    ensures ops[..j + 1] == ops[..j] + [ops[j]]
    ensures PerformAll(m, ops[..j + 1]) == Perform(PerformAll(m, ops[..j]), ops[j])
    ensures AllAccepted(m, ops[..j + 1]) <==> AllAccepted(m, ops[..j]) && Accepted(PerformAll(m, ops[..j]), ops[j])
    ensures AllAccepted(m, ops) ==> AllAccepted(m, ops[..j + 1])
    decreases |ops|
  {
    assert ops[..j + 1][..j] == ops[..j];
    if j < |ops| - 1 {
      var init := ops[..|ops| - 1];
      AcceptedAt(m, init, j);
      assert init[..j] == ops[..j];
    }
  }

  ghost function OpIds<P>(ops: seq<Op<P>>): set<string> {
    set op | op in ops :: op.id
  }

  lemma {:induction false} NotNamed<P>(m: map<string, P>, ops: seq<Op<P>>, id: string)
    requires id !in OpIds(ops)
    ensures At(PerformAll(m, ops), id) == At(m, id)
  {
    if ops != [] {
      var n := |ops| - 1;
      assert ops[n] in ops && forall op | op in ops[..n] :: op in ops;
      NotNamed(m, ops[..n], id);
    }
  }

  lemma {:induction false} PerformConcat<P>(m: map<string, P>, a: seq<Op<P>>, b: seq<Op<P>>)
    ensures PerformAll(m, a + b) == PerformAll(PerformAll(m, a), b)
    ensures AllAccepted(m, a + b) <==> AllAccepted(m, a) && AllAccepted(PerformAll(m, a), b)
  {
    if b == [] {
      assert a + b == a;
    } else {
      var init := b[..|b| - 1];
      PerformConcat(m, a, init);
      assert (a + b)[..|a + b| - 1] == a + init;
    }
  }

  // ---------- buckets by kind, and the order the pusher works them off ----------

  function OfKind<P(!new,==)>(ops: seq<Op<P>>, kind: OpKind): (r: seq<Op<P>>)
    ensures forall op :: op in r <==> op in ops && op.kind == kind
  {
    if ops == [] then []
    else
      var rest := OfKind(ops[..|ops| - 1], kind);
      var last := ops[|ops| - 1];
      assert ops == ops[..|ops| - 1] + [last];
      if last.kind == kind then rest + [last] else rest
  }

  lemma OfKindSnoc<P(!new)>(ops: seq<Op<P>>, op: Op<P>, kind: OpKind)
    ensures OfKind(ops + [op], kind) == if op.kind == kind then OfKind(ops, kind) + [op] else OfKind(ops, kind)
  {
  }

  ghost predicate DistinctIds<P>(ops: seq<Op<P>>) {
    forall i, j | 0 <= i < j < |ops| :: ops[i].id != ops[j].id
  }

  lemma {:induction false} BucketDistinct<P(!new)>(ops: seq<Op<P>>, kind: OpKind)
    requires WellShaped(ops)
    ensures DistinctIds(OfKind(ops, kind))
  {
    if ops != [] {
      var n := |ops| - 1;
      BucketDistinct(ops[..n], kind);
      var rest := OfKind(ops[..n], kind);
      forall k | 0 <= k < |rest| && ops[n].kind == kind
        ensures rest[k].id != ops[n].id
      {
        assert rest[k] in rest;
        var i :| 0 <= i < n && ops[i] == rest[k];
      }
    }
  }

  function PushOrder<P(!new,==)>(ops: seq<Op<P>>): seq<Op<P>> {
    OfKind(ops, Delete) + (OfKind(ops, Create) + OfKind(ops, Update))
  }

  lemma PushOrderWellShaped<P(!new)>(ops: seq<Op<P>>)
    requires WellShaped(ops)
    ensures WellShaped(PushOrder(ops))
    ensures forall op :: op in PushOrder(ops) <==> op in ops
  {
    var d, c, u := OfKind(ops, Delete), OfKind(ops, Create), OfKind(ops, Update);
    BucketDistinct(ops, Delete);
    BucketDistinct(ops, Create);
    BucketDistinct(ops, Update);
    KindsTogether(ops);
    ShapedParts(c, u);
    assert forall x :: x in c + u <==> x in c || x in u;
    ShapedParts(d, c + u);
  }

  lemma KindsTogether<P(!new)>(ops: seq<Op<P>>)
    requires WellShaped(ops)
    ensures forall x, y | x in ops && y in ops && x.id == y.id && x.kind != y.kind ::
            x.kind != Update && y.kind != Update
  {
  }

  lemma ShapedParts<P(!new)>(a: seq<Op<P>>, b: seq<Op<P>>)
    requires DistinctIds(a) || WellShaped(a)
    requires DistinctIds(b) || WellShaped(b)
    requires forall x, y | x in a && y in b && x.id == y.id :: x.kind == Delete && y.kind == Create
    ensures WellShaped(a + b)
  {
  }

  /** Working off deletions, then creations, then updates means what the list order means,
      and the server accepts one exactly when it accepts the other. */
  lemma PushOrderPreservesMeaning<P(!new)>(m: map<string, P>, ops: seq<Op<P>>)
    requires WellShaped(ops)
    ensures PerformAll(m, PushOrder(ops)) == PerformAll(m, ops)
    ensures AllAccepted(m, PushOrder(ops)) <==> AllAccepted(m, ops)
  {
    PushOrderWellShaped(ops);
    var pushed := PushOrder(ops);
    var m1, m2 := PerformAll(m, pushed), PerformAll(m, ops);
    forall id: string
      ensures At(m1, id) == At(m2, id)
      ensures Drops(pushed, id) <==> Drops(ops, id)
    {
      PerformAllSettles(m, pushed, id);
      PerformAllSettles(m, ops, id);
    }
    SameAt(m1, m2);
    AcceptedInOrder(m, pushed);
    AcceptedInOrder(m, ops);
  }

  /** The same in two batches, with the deletions apart. */
  lemma DeletionsFirst<P(!new)>(m: map<string, P>, ops: seq<Op<P>>, d: seq<Op<P>>, w: seq<Op<P>>)
    requires WellShaped(ops) && d == OfKind(ops, Delete) && w == OfKind(ops, Create) + OfKind(ops, Update)
    ensures PerformAll(PerformAll(m, d), w) == PerformAll(m, ops)
    ensures Admissible(m, ops) <==> AllAccepted(m, d) && AllAccepted(PerformAll(m, d), w)
  {
    PushOrderPreservesMeaning(m, ops);
    AcceptedInOrder(m, ops);
    assert PushOrder(ops) == d + w;
    PerformConcat(m, d, w);
  }

  // ---------- the diff itself ----------

  /** What one id needs to get from base to target; an entry whose two versions `recreate` rejects
      is dropped and created again instead of being updated. */
  function OpsFor<P(==)>(base: map<string, P>, target: map<string, P>, deleteMissing: bool,
                         recreate: (P, P) -> bool, id: string): seq<Op<P>>
  {
    if id !in target then
      if id in base && deleteMissing then [Op(Delete, id, base[id])] else []
    else if id !in base then [Op(Create, id, target[id])]
    else if base[id] == target[id] then []
    else if recreate(base[id], target[id]) then [Op(Delete, id, base[id]), Op(Create, id, target[id])]
    else [Op(Update, id, target[id])]
  }

  ghost predicate IsListDiff<P(!new)>(ops: seq<Op<P>>, base: map<string, P>, target: map<string, P>,
                                      deleteMissing: bool, recreate: (P, P) -> bool)
  {
    && WellShaped(ops)
    && forall op :: op in ops <==> op in OpsFor(base, target, deleteMissing, recreate, op.id)
  }

  function Merged<P>(base: map<string, P>, target: map<string, P>, deleteMissing: bool): map<string, P> {
    if deleteMissing then target else base + target
  }

  /** Which operations name an id, by what the two sides have. */
  lemma PlannedOps<P(!new)>(ops: seq<Op<P>>, base: map<string, P>, target: map<string, P>, deleteMissing: bool,
                            recreate: (P, P) -> bool, id: string)
    requires IsListDiff(ops, base, target, deleteMissing, recreate)
    ensures var b, t := At(base, id), At(target, id);
            var rebuilt := b.Some? && t.Some? && b != t && recreate(b.value, t.value);
            && (Drops(ops, id) <==> b.Some? && if t.None? then deleteMissing else rebuilt)
            && (forall p :: Op(Create, id, p) in ops <==> t == Some(p) && (b.None? || rebuilt))
            && (forall p :: Op(Update, id, p) in ops <==> t == Some(p) && b.Some? && b != t && !rebuilt)
  {
    var mine := OpsFor(base, target, deleteMissing, recreate, id);
    assert forall op | op in mine :: op.id == id && op in ops;
    if mine != [] {
      assert mine[0] in mine && mine[|mine| - 1] in mine;
    }
  }

  lemma DiffAtId<P(!new)>(ops: seq<Op<P>>, base: map<string, P>, target: map<string, P>, deleteMissing: bool,
                          recreate: (P, P) -> bool, id: string)
    requires IsListDiff(ops, base, target, deleteMissing, recreate)
    ensures At(PerformAll(base, ops), id) == At(Merged(base, target, deleteMissing), id)
    ensures (exists op :: op in ops && op.id == id) <==> At(base, id) != At(Merged(base, target, deleteMissing), id)
    ensures id !in base ==> forall op | op in ops && op.id == id :: op.kind == Create
    ensures id in base ==> forall op | op in ops && op.id == id && op.kind == Create :: Drops(ops, id)
  {
    var mine := OpsFor(base, target, deleteMissing, recreate, id);
    PerformAllSettles(base, ops, id);
    assert forall op | op in mine :: op.id == id && op in ops;
    if mine != [] {
      assert mine[0] in mine && mine[|mine| - 1] in mine;
    }
  }

  /** Patching base with the diff gives target (plus whatever base had more, when that is kept);
      the server accepts every request, and nothing is sent exactly when there is nothing to change. */
  lemma ListDiffRoundTrip<P(!new)>(ops: seq<Op<P>>, base: map<string, P>, target: map<string, P>,
                                   deleteMissing: bool, recreate: (P, P) -> bool)
    requires IsListDiff(ops, base, target, deleteMissing, recreate)
    ensures PerformAll(base, ops) == Merged(base, target, deleteMissing)
    ensures AllAccepted(base, ops)
    ensures ops == [] <==> base == Merged(base, target, deleteMissing)
  {
    var after := Merged(base, target, deleteMissing);
    forall id: string
      ensures At(PerformAll(base, ops), id) == At(after, id)
      ensures (exists op :: op in ops && op.id == id) <==> At(base, id) != At(after, id)
    {
      DiffAtId(ops, base, target, deleteMissing, recreate, id);
    }
    SameAt(PerformAll(base, ops), after);
    AcceptedInOrder(base, ops);
    forall op | op in ops
      ensures if op.kind == Create then op.id !in base || Drops(ops, op.id) else op.id in base
    {
      DiffAtId(ops, base, target, deleteMissing, recreate, op.id);
    }
    if ops == [] {
      SameAt(base, after);
    } else {
      assert ops[0] in ops;
    }
  }

  lemma SameAt<K(!new), V>(a: map<K, V>, b: map<K, V>)
    requires forall k :: At(a, k) == At(b, k)
    ensures a == b
  {
    forall k ensures (k in a <==> k in b) && (k in a ==> a[k] == b[k]) {
      assert At(a, k) == At(b, k);
    }
  }

  /** The listed operations are the planned ones for the ids in `handled`. */
  ghost predicate Covers<P(!new)>(ops: seq<Op<P>>, base: map<string, P>, target: map<string, P>, deleteMissing: bool,
                                  recreate: (P, P) -> bool, handled: set<string>)
  {
    && WellShaped(ops)
    && forall op :: op in ops <==> op in OpsFor(base, target, deleteMissing, recreate, op.id) && op.id in handled
  }

  lemma Extend<P(!new)>(ops: seq<Op<P>>, base: map<string, P>, target: map<string, P>,
                        deleteMissing: bool, recreate: (P, P) -> bool, handled: set<string>, id: string)
    requires Covers(ops, base, target, deleteMissing, recreate, handled) && id !in handled
    ensures Covers(ops + OpsFor(base, target, deleteMissing, recreate, id), base, target, deleteMissing, recreate,
                   handled + {id})
  {
  }

  method ListDiffDataSeriesChild<P(==,!new)>(base: seq<Entry<P>>, target: seq<Entry<P>>, deleteMissing: bool,
                                             recreate: (P, P) -> bool) returns (ops: seq<Op<P>>)
    ensures IsListDiff(ops, Dict(base), Dict(target), deleteMissing, recreate)
  {
    ops := [];
    var b := BuildDict(base);
    var t := BuildDict(target);
    // the ids whose operations are all listed
    ghost var handled := if deleteMissing then {} else b.Keys - t.Keys;
    var todo := if deleteMissing then b.Keys - t.Keys else {};
    while todo != {}
      invariant handled == (b.Keys - t.Keys) - todo && todo <= b.Keys - t.Keys
      invariant todo != {} ==> deleteMissing
      invariant Covers(ops, b, t, deleteMissing, recreate, handled)
    {
      var id :| id in todo;
      Extend(ops, b, t, deleteMissing, recreate, handled, id);
      ops := ops + [Op(Delete, id, b[id])];
      todo, handled := todo - {id}, handled + {id};
    }
    todo := t.Keys - b.Keys;
    while todo != {}
      invariant handled == ((b.Keys - t.Keys) + (t.Keys - b.Keys)) - todo && todo <= t.Keys - b.Keys
      invariant Covers(ops, b, t, deleteMissing, recreate, handled)
    {
      var id :| id in todo;
      Extend(ops, b, t, deleteMissing, recreate, handled, id);
      ops := ops + [Op(Create, id, t[id])];
      todo, handled := todo - {id}, handled + {id};
    }
    ops := UpdateChildren(ops, b, t, deleteMissing, recreate, handled);
  }

  /** The last loop of the diff: entries on both sides. */
  method UpdateChildren<P(==,!new)>(listed: seq<Op<P>>, b: map<string, P>, t: map<string, P>, deleteMissing: bool,
                                    recreate: (P, P) -> bool, ghost listedFor: set<string>) returns (ops: seq<Op<P>>)
    requires Covers(listed, b, t, deleteMissing, recreate, listedFor)
    requires listedFor == (b.Keys - t.Keys) + (t.Keys - b.Keys)
    ensures IsListDiff(ops, b, t, deleteMissing, recreate)
  {
    ops := listed;
    var todo := set id | id in b && id in t && t[id] != b[id];
    ghost var handled := (b.Keys + t.Keys) - todo;
    while todo != {}
      invariant handled == (b.Keys + t.Keys) - todo && todo <= b.Keys * t.Keys
      invariant forall id | id in todo :: t[id] != b[id]
      invariant Covers(ops, b, t, deleteMissing, recreate, handled)
    {
      var id :| id in todo;
      Extend(ops, b, t, deleteMissing, recreate, handled, id);
      if recreate(b[id], t[id]) {
        ops := ops + [Op(Delete, id, b[id]), Op(Create, id, t[id])];
      } else {
        ops := ops + [Op(Update, id, t[id])];
      }
      todo, handled := todo - {id}, handled + {id};
    }
  }
}
