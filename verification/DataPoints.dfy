/** The diff of two lists of data points. */
module DataPoints {
  import opened Basics
  import opened ListDiff

  /** What a data point carries next to its external id. */
  datatype Body = Body(payload: map<string, string>, identifyDimensionsByExternalId: bool)

  type DataPoint = Entry<Body>

  /** A deletion names the point and carries nothing else. */
  const NOTHING := Body(map[], true)

  datatype Result = Ok(ops: seq<Op<Body>>) | DuplicateInBase | DuplicateInTarget | NotImplemented

  predicate UniqueIds(points: seq<DataPoint>) {
    forall i, j | 0 <= i < j < |points| :: points[i].id != points[j].id
  }

  function Ids(points: seq<DataPoint>): set<string> {
    set p | p in points :: p.id
  }

  lemma {:induction false} CountElements(ids: seq<string>)
    ensures |Elements(ids)| <= |ids|
    ensures |Elements(ids)| == |ids| <==> AllDifferent(ids)
  {
    if ids != [] {
      var n := |ids| - 1;
      var init, last := ids[..n], ids[n];
      CountElements(init);
      assert ids == init + [last];
      assert Elements(ids) == Elements(init) + {last};
      AllDifferentSnoc(init, last);
      if last in init {
        assert Elements(ids) == Elements(init);
      }
    }
  }

  predicate AllDifferent(ids: seq<string>) {
    forall i, j | 0 <= i < j < |ids| :: ids[i] != ids[j]
  }

  lemma AllDifferentSnoc(init: seq<string>, last: string)
    ensures AllDifferent(init + [last]) <==> AllDifferent(init) && last !in init
  {
    var ids := init + [last];
    if AllDifferent(ids) {
      assert forall i | 0 <= i < |init| :: init[i] == ids[i] && ids[i] != ids[|init|];
    }
  }

  /** Comparing sizes finds duplicates. */
  lemma IdsCount(points: seq<DataPoint>)
    ensures |Ids(points)| == |points| <==> UniqueIds(points)
  {
    var ids := seq(|points|, i requires 0 <= i < |points| => points[i].id);
    CountElements(ids);
    assert forall i | 0 <= i < |points| :: ids[i] == points[i].id && points[i] in points && ids[i] in ids;
    assert Elements(ids) == Ids(points);
    assert AllDifferent(ids) ==> UniqueIds(points);
  }

  lemma {:induction false} DictMeaning(points: seq<DataPoint>)
    requires UniqueIds(points)
    ensures Dict(points).Keys == Ids(points) && forall p | p in points :: Dict(points)[p.id] == p.payload
  {
    if points != [] {
      var n := |points| - 1;
      assert points == points[..n] + [points[n]];
      DictMeaning(points[..n]);
      assert forall i | 0 <= i < n :: points[..n][i] == points[i] && points[i].id != points[n].id;
    }
  }

  /** One operation for each id that differs, none for any other. */
  ghost predicate IsPointDiff(ops: seq<Op<Body>>, base: map<string, Body>, target: map<string, Body>) {
    && DistinctIds(ops)
    && (forall op | op in ops :: op == OpFor(base, target, op.id) && At(base, op.id) != At(target, op.id))
    && (forall id | At(base, id) != At(target, id) :: exists op :: op in ops && op.id == id)
  }

  function OpFor(base: map<string, Body>, target: map<string, Body>, id: string): Op<Body> {
    if id !in target then Op(Delete, id, NOTHING)
    else if id in base then Op(Update, id, target[id])
    else Op(Create, id, target[id])
  }

  /** Exact: performed on base, the operations are all accepted and give target, and there are none exactly if the
      two are equal. */
  lemma PointDiffIsExact(ops: seq<Op<Body>>, base: map<string, Body>, target: map<string, Body>)
    requires IsPointDiff(ops, base, target)
    ensures AllAccepted(base, ops) && PerformAll(base, ops) == target
    ensures ops == [] <==> base == target
  {
    AcceptedInOrder(base, ops);
    forall id ensures At(PerformAll(base, ops), id) == At(target, id) {
      PerformAllSettles(base, ops, id);
      if At(base, id) != At(target, id) {
        var op :| op in ops && op.id == id;
        assert op == OpFor(base, target, id);
      }
    }
    SameAt(PerformAll(base, ops), target);
    if ops != [] {
      assert ops[0] in ops;
    }
  }

  lemma OpIdsCount(ops: seq<Op<Body>>)
    ensures |OpIds(ops)| <= |ops| && (DistinctIds(ops) ==> |OpIds(ops)| == |ops|)
  {
    var ids := seq(|ops|, i requires 0 <= i < |ops| => ops[i].id);
    CountElements(ids);
    assert Elements(ids) == OpIds(ops) by {
      assert forall i | 0 <= i < |ops| :: ids[i] == ops[i].id && ops[i] in ops && ids[i] in ids;
    }
  }

  /** Minimal: no other list of operations that turns base into target is shorter. */
  lemma PointDiffIsMinimal(ops: seq<Op<Body>>, other: seq<Op<Body>>, base: map<string, Body>, target: map<string, Body>)
    requires IsPointDiff(ops, base, target) && PerformAll(base, other) == target
    ensures |ops| <= |other|
  {
    forall id | id in OpIds(ops) ensures id in OpIds(other) {
      if id !in OpIds(other) {
        NotNamed(base, other, id);
      }
    }
    SubsetSize(OpIds(ops), OpIds(other));
    OpIdsCount(ops);
    OpIdsCount(other);
  }

  /** Comparing two points is refused if the series has file or image facts, even if the points are equal. */
  method DiffDatapoint(base: Body, target: Body, hasFileLikeFacts: bool) returns (differs: Option<bool>)
    ensures differs == if hasFileLikeFacts then None else Some(base != target)
  {
    differs := if hasFileLikeFacts then None else Some(base != target);
  }

  /** The diff so far: the ids in `handled` are done. */
  ghost predicate DiffsSoFar(ops: seq<Op<Body>>, base: map<string, Body>, target: map<string, Body>,
                             handled: set<string>)
  {
    && DistinctIds(ops)
    && (forall op | op in ops ::
        op == OpFor(base, target, op.id) && At(base, op.id) != At(target, op.id) && op.id in handled)
    && (forall id | id in handled && At(base, id) != At(target, id) :: exists op :: op in ops && op.id == id)
  }

  lemma OneMoreDiff(ops: seq<Op<Body>>, base: map<string, Body>, target: map<string, Body>, handled: set<string>,
                    id: string)
    requires DiffsSoFar(ops, base, target, handled) && id !in handled
    ensures At(base, id) != At(target, id) ==> DiffsSoFar(ops + [OpFor(base, target, id)], base, target, handled + {id})
    ensures At(base, id) == At(target, id) ==> DiffsSoFar(ops, base, target, handled + {id})
  {
  }

  method DiffDatapointList(base: seq<DataPoint>, target: seq<DataPoint>, hasFileLikeFacts: bool)
    returns (result: Result)
    ensures result.DuplicateInBase? <==> !UniqueIds(base)
    ensures result.DuplicateInTarget? <==> UniqueIds(base) && !UniqueIds(target)
    ensures result.NotImplemented? <==>
            UniqueIds(base) && UniqueIds(target) && hasFileLikeFacts && Ids(base) * Ids(target) != {}
    ensures result.Ok? ==> IsPointDiff(result.ops, Dict(base), Dict(target))
  {
    var baseIds, targetIds := Ids(base), Ids(target);
    IdsCount(base);
    IdsCount(target);
    if |baseIds| != |base| {
      return DuplicateInBase;
    }
    if |targetIds| != |target| {
      return DuplicateInTarget;
    }
    DictMeaning(base);
    DictMeaning(target);
    var baseDict := BuildDict(base);
    var ops, left, compared := DiffTargets(baseDict, target, hasFileLikeFacts);
    if !compared {
      return NotImplemented;
    }
    ops := DeleteRest(ops, left, baseDict, Dict(target));
    result := Ok(ops);
  }

  /** The operations for the ids in target, and the ids of base that are left over. */
  method DiffTargets(base: map<string, Body>, target: seq<DataPoint>, hasFileLikeFacts: bool)
      returns (ops: seq<Op<Body>>, left: set<string>, compared: bool)
    requires UniqueIds(target) && Dict(target).Keys == Ids(target)
             && forall p | p in target :: Dict(target)[p.id] == p.payload
    ensures !compared <==> hasFileLikeFacts && base.Keys * Ids(target) != {}
    ensures compared ==> left == base.Keys - Ids(target) && DiffsSoFar(ops, base, Dict(target), Ids(target))
  {
    var baseDict := base;
    ghost var t, handled: set<string> := Dict(target), {};
    ops, left, compared := [], base.Keys, true;
    for i := 0 to |target|
      invariant compared && handled == Ids(target[..i]) && baseDict == base - handled
      invariant DiffsSoFar(ops, base, t, handled)
      invariant hasFileLikeFacts ==> base.Keys * handled == {}
    {
      var point := target[i];
      NextPoint(target, i);
      assert point.id in t && t[point.id] == point.payload;
      compared, ops := DiffTarget(ops, base, baseDict, point, hasFileLikeFacts, t, handled);
      if !compared {
        return;
      }
      baseDict, handled := baseDict - {point.id}, handled + {point.id};
    }
    assert target[..|target|] == target;
    left := baseDict.Keys;
  }

  /** One point of target. */
  method DiffTarget(listed: seq<Op<Body>>, ghost base: map<string, Body>, left: map<string, Body>, point: DataPoint,
                    hasFileLikeFacts: bool, ghost t: map<string, Body>, ghost handled: set<string>)
      returns (compared: bool, ops: seq<Op<Body>>)
    requires DiffsSoFar(listed, base, t, handled) && left == base - handled
    requires point.id !in handled && point.id in t && t[point.id] == point.payload
    ensures !compared <==> hasFileLikeFacts && point.id in base
    ensures compared ==> DiffsSoFar(ops, base, t, handled + {point.id})
  {
    compared, ops := true, listed;
    OneMoreDiff(listed, base, t, handled, point.id);
    if point.id in left {
      var differs := DiffDatapoint(left[point.id], point.payload, hasFileLikeFacts);
      if differs == None {
        compared := false;
      } else if differs.value {
        ops := ops + [Op(Update, point.id, point.payload)];
      }
    } else {
      ops := ops + [Op(Create, point.id, point.payload)];
    }
  }

  lemma NextPoint(points: seq<DataPoint>, i: nat)
    requires UniqueIds(points) && i < |points|
    ensures points[i] in points && points[i].id !in Ids(points[..i]) && points[i].id in Ids(points)
    ensures Ids(points[..i + 1]) == Ids(points[..i]) + {points[i].id}
  {
  }

  /** The ids that are left in base. */
  method DeleteRest(listed: seq<Op<Body>>, left: set<string>, ghost b: map<string, Body>, ghost t: map<string, Body>)
      returns (ops: seq<Op<Body>>)
    requires DiffsSoFar(listed, b, t, t.Keys) && left == b.Keys - t.Keys
    ensures IsPointDiff(ops, b, t)
  {
    ops := listed;
    var todo := left;
    ghost var handled := t.Keys;
    while todo != {}
      invariant todo <= left && handled == t.Keys + (left - todo)
      invariant DiffsSoFar(ops, b, t, handled)
    {
      var id :| id in todo;
      OneMoreDiff(ops, b, t, handled, id);
      ops := ops + [Op(Delete, id, NOTHING)];
      todo, handled := todo - {id}, handled + {id};
    }
    assert forall id | At(b, id) != At(t, id) :: id in handled;
  }
}
