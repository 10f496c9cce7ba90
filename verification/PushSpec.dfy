/** What a push needs in order to be accepted, and what it leaves behind. */
module PushSpec {
  import opened Basics
  import opened ListDiff
  import opened Definitions
  import opened Api

  /** An operation together with the slot it works on. */
  datatype Tagged = Tagged(slot: Slot, op: Op<Content>)

  function Tag(slot: Slot, ops: seq<Op<Content>>): (r: seq<Tagged>)
    ensures |r| == |ops| && forall i | 0 <= i < |r| :: r[i] == Tagged(slot, ops[i])
  {
    seq(|ops|, i requires 0 <= i < |ops| => Tagged(slot, ops[i]))
  }

  const KINDS: seq<Kind> :=
      [FloatFact, StringFact, TextFact, TimestampFact, ImageFact, FileFact, JsonFact, BooleanFact, Dim]

  /** The operations of a structure diff, in the order of its fields. */
  function StructureOps(structure: PerKind<seq<Op<Content>>>, n: nat := |KINDS|): seq<Tagged>
    requires n <= |KINDS|
  {
    if n == 0 then [] else StructureOps(structure, n - 1) + Tag(Element(KINDS[n - 1]), structure.Of(KINDS[n - 1]))
  }

  function Picked(elems: seq<Tagged>, kind: OpKind): (r: seq<Tagged>)
    ensures forall e :: e in r <==> e in elems && e.op.kind == kind
  {
    if elems == [] then []
    else
      var last := elems[|elems| - 1];
      var rest := Picked(elems[..|elems| - 1], kind);
      assert elems == elems[..|elems| - 1] + [last];
      if last.op.kind == kind then rest + [last] else rest
  }

  /** A bucket keeps the order of the list. */
  lemma PickedSnoc(elems: seq<Tagged>, e: Tagged, kind: OpKind)
    ensures Picked([], kind) == []
    ensures Picked(elems + [e], kind) == Picked(elems, kind) + if e.op.kind == kind then [e] else []
  {
    assert (elems + [e])[..|elems|] == elems;
  }

  function PathOf(series: string, e: Tagged): Path {
    Path(series, e.slot, e.op.id)
  }

  function Paths(series: string, elems: seq<Tagged>): set<Path> {
    set e | e in elems :: PathOf(series, e)
  }

  ghost predicate DistinctPaths(elems: seq<Tagged>) {
    forall i, j | 0 <= i < j < |elems| :: elems[i].slot != elems[j].slot || elems[i].op.id != elems[j].op.id
  }

  /** The elements written have their payload, everything else is as before. */
  ghost predicate Wrote(before: map<Path, Content>, after: map<Path, Content>, series: string, elems: seq<Tagged>) {
    && (forall e | e in elems :: At(after, PathOf(series, e)) == Some(e.op.payload))
    && (forall p | p !in Paths(series, elems) :: At(after, p) == At(before, p))
  }

  lemma WroteMore(before: map<Path, Content>, after: map<Path, Content>, series: string, elems: seq<Tagged>, e: Tagged)
    requires Wrote(before, after, series, elems) && PathOf(series, e) !in Paths(series, elems)
    ensures Wrote(before, after[PathOf(series, e) := e.op.payload], series, elems + [e])
  {
  }

  /** What a created child needs to be accepted. */
  ghost predicate CreateFits(reg: Registry, items: map<Path, Content>, series: string, e: Tagged) {
    && series in reg.open && Postable(items, PathOf(series, e), e.op.payload)
    && (e.op.payload.Dimension? ==> e.op.payload.reference in reg.known)
  }

  ghost predicate UpdateFits(reg: Registry, items: map<Path, Content>, series: string, e: Tagged) {
    && series in reg.open && Patchable(items, PathOf(series, e), e.op.payload)
    && (e.op.payload.Dimension? ==> e.op.payload.reference in reg.known)
  }

  /** No structure element in the list has the id of an earlier one it is compared with. */
  ghost predicate DistinctElementIds(elems: seq<Tagged>) {
    forall i, j | 0 <= i < j < |elems| && Compared(elems[i].slot) && elems[j].slot.Element? ::
      elems[i].op.id != elems[j].op.id
  }

  ghost predicate CreatesFit(reg: Registry, items: map<Path, Content>, series: string, creates: seq<Tagged>) {
    DistinctElementIds(creates) && forall e | e in creates :: CreateFits(reg, items, series, e)
  }

  ghost predicate UpdatesFit(reg: Registry, items: map<Path, Content>, series: string, updates: seq<Tagged>) {
    forall e | e in updates :: UpdateFits(reg, items, series, e)
  }

  ghost predicate ElemsFit(reg: Registry, items: map<Path, Content>, series: string, elems: seq<Tagged>) {
    && CreatesFit(reg, items, series, Picked(elems, Create))
    && UpdatesFit(reg, items, series, Picked(elems, Update))
  }

  /** The children of a list are structure elements all, or none of them is. */
  ghost predicate Alike(elems: seq<Tagged>, elements: bool) {
    forall e | e in elems :: e.slot.Element? == elements
  }

  /** The elements a list writes. */
  function Written(elems: seq<Tagged>): seq<Tagged> {
    Picked(elems, Create) + Picked(elems, Update)
  }

  lemma WroteBoth(before: map<Path, Content>, middle: map<Path, Content>, after: map<Path, Content>, series: string,
                  a: seq<Tagged>, b: seq<Tagged>)
    requires Wrote(before, middle, series, a) && Wrote(middle, after, series, b)
    requires Paths(series, a) !! Paths(series, b)
    ensures Wrote(before, after, series, a + b)
  {
  }

  lemma PathsSnoc(series: string, elems: seq<Tagged>, j: nat)
    requires j < |elems|
    ensures elems[..j + 1] == elems[..j] + [elems[j]]
    ensures Paths(series, elems[..j + 1]) == Paths(series, elems[..j]) + {PathOf(series, elems[j])}
    ensures DistinctPaths(elems) ==> PathOf(series, elems[j]) !in Paths(series, elems[..j])
  {
  }

  lemma RemoveInSteps<K, V>(m: map<K, V>, a: set<K>, b: set<K>)
    ensures (m - a) - b == m - (a + b)
  {
  }

  /** Deleting facts does not change what points at another fact, nor do the other children matter to each other. */
  lemma DeletableAmongAlike(items: map<Path, Content>, gone: set<Path>, p: Path)
    requires forall q | q in items :: Typed(q.slot, items[q])
    requires forall q | q in gone :: q.slot.Element? == p.slot.Element?
    requires p !in gone
    ensures Deletable(items - gone, p) <==> Deletable(items, p)
  {
    if p.slot.Element? {
      forall q ensures Points(items - gone, q, p) <==> Points(items, q, p) {
        if q in items && items[q].Index? { assert q !in gone; }
      }
    }
  }

  /** The children created before it in its bucket matter to a child only if they are elements with its id. */
  lemma FitsInTurn(reg: Registry, before: map<Path, Content>, after: map<Path, Content>, series: string,
                   creates: seq<Tagged>, j: nat, elements: bool)
    requires j < |creates| && DistinctPaths(creates) && Alike(creates, elements)
    requires Wrote(before, after, series, creates[..j])
    ensures CreateFits(reg, after, series, creates[j]) <==>
            && CreateFits(reg, before, series, creates[j])
            && forall i | 0 <= i < j && Compared(creates[i].slot) :: creates[i].op.id != creates[j].op.id
  {
    var e := creates[j];
    assert e in creates;
    PathsSnoc(series, creates, j);
    assert At(after, PathOf(series, e)) == At(before, PathOf(series, e));
    if elements {
      IdsInTurn(before, after, series, creates, j);
    } else {
      TargetsInTurn(before, after, series, creates, j);
    }
  }

  lemma TargetsInTurn(before: map<Path, Content>, after: map<Path, Content>, series: string, creates: seq<Tagged>,
                      j: nat)
    requires j < |creates| && Alike(creates, false) && Wrote(before, after, series, creates[..j])
    ensures forall t :: TargetPath(series, t) in after <==> TargetPath(series, t) in before
  {
    WroteKeys(before, after, series, creates[..j]);
    MadeAlike(series, creates, j, false);
  }

  lemma WroteKeys(before: map<Path, Content>, after: map<Path, Content>, series: string, elems: seq<Tagged>)
    requires Wrote(before, after, series, elems)
    ensures forall q :: q in after <==> q in before || q in Paths(series, elems)
  {
    forall q ensures q in after <==> q in before || q in Paths(series, elems) {
      if q in Paths(series, elems) {
        var x :| x in elems && PathOf(series, x) == q;
        assert At(after, PathOf(series, x)) == Some(x.op.payload);
      } else {
        assert At(after, q) == At(before, q);
      }
    }
  }

  /** What is there while a list is worked off was there before or is on the list. */
  lemma WroteWithin(before: map<Path, Content>, after: map<Path, Content>, series: string, elems: seq<Tagged>, j: nat)
    requires j < |elems| && Wrote(before, after, series, elems[..j])
    ensures after.Keys + {PathOf(series, elems[j])} <= before.Keys + Paths(series, elems)
  {
    WroteKeys(before, after, series, elems[..j]);
    assert elems[j] in elems && forall e | e in elems[..j] :: e in elems;
  }

  lemma MadeAlike(series: string, creates: seq<Tagged>, j: nat, elements: bool)
    requires j < |creates| && Alike(creates, elements)
    ensures forall q | q in Paths(series, creates[..j]) ::
              q.slot.Element? == elements && q.series == series && exists i :: 0 <= i < j && creates[i].op.id == q.id
    ensures forall i | 0 <= i < j :: PathOf(series, creates[i]) in Paths(series, creates[..j])
  {
    forall i | 0 <= i < j ensures PathOf(series, creates[i]) in Paths(series, creates[..j]) {
      assert creates[..j][i] == creates[i];
    }
    forall q | q in Paths(series, creates[..j])
      ensures q.slot.Element? == elements && q.series == series && exists i :: 0 <= i < j && creates[i].op.id == q.id
    {
      var x :| x in creates[..j] && PathOf(series, x) == q;
      var i :| 0 <= i < j && creates[i] == x;
      assert creates[i] in creates;
    }
  }

  lemma IdsInTurn(before: map<Path, Content>, after: map<Path, Content>, series: string, creates: seq<Tagged>, j: nat)
    requires j < |creates| && Alike(creates, true) && Wrote(before, after, series, creates[..j])
    ensures IdFree(after, series, creates[j].op.id) <==>
            && IdFree(before, series, creates[j].op.id)
            && forall i | 0 <= i < j && Compared(creates[i].slot) :: creates[i].op.id != creates[j].op.id
  {
    WroteKeys(before, after, series, creates[..j]);
    MadeAlike(series, creates, j, true);
    forall i | 0 <= i < j ensures PathOf(series, creates[i]).slot.Element? {
      assert creates[i] in creates;
    }
  }

  lemma CreatesFitSnoc(reg: Registry, items: map<Path, Content>, series: string, creates: seq<Tagged>, j: nat,
                       elements: bool)
    requires j < |creates| && Alike(creates, elements)
    ensures CreatesFit(reg, items, series, creates[..j + 1]) <==>
            && CreatesFit(reg, items, series, creates[..j]) && CreateFits(reg, items, series, creates[j])
            && forall i | 0 <= i < j && Compared(creates[i].slot) :: creates[i].op.id != creates[j].op.id
    ensures CreatesFit(reg, items, series, creates) ==> CreatesFit(reg, items, series, creates[..j + 1])
  {
    assert creates[..j + 1] == creates[..j] + [creates[j]];
    assert forall i | 0 <= i <= j :: creates[i] in creates;
  }

  /** What else is written does not matter to an update. */
  lemma UpdateFitsLater(reg: Registry, before: map<Path, Content>, after: map<Path, Content>, series: string,
                        written: seq<Tagged>, e: Tagged)
    requires Wrote(before, after, series, written) && PathOf(series, e) !in Paths(series, written)
    ensures UpdateFits(reg, before, series, e) <==> UpdateFits(reg, after, series, e)
  {
    assert At(after, PathOf(series, e)) == At(before, PathOf(series, e));
  }

  // ---------- one diff ----------

  ghost predicate ShapedDiff(diff: SeriesDiff) {
    forall slot :: WellShaped(diff.In(slot))
  }

  /** The shape of a list of operations, slot by slot. */
  ghost predicate ShapedTags(elems: seq<Tagged>) {
    forall i, j | 0 <= i < j < |elems| && elems[i].slot == elems[j].slot && elems[i].op.id == elems[j].op.id ::
      elems[i].op.kind == Delete && elems[j].op.kind == Create
  }

  lemma {:induction false} StructureMembers(diff: SeriesDiff, n: nat)
    requires n <= |KINDS|
    ensures forall e :: e in StructureOps(diff.structure, n) <==>
              e.slot.Element? && e.slot.kind in KINDS[..n] && e.op in diff.In(e.slot)
  {
    if n > 0 {
      StructureMembers(diff, n - 1);
      assert KINDS[..n] == KINDS[..n - 1] + [KINDS[n - 1]];
      TagMembers(Element(KINDS[n - 1]), diff.structure.Of(KINDS[n - 1]));
    }
  }

  lemma {:induction false} StructureOpsShaped(diff: SeriesDiff, n: nat)
    requires ShapedDiff(diff) && n <= |KINDS|
    ensures ShapedTags(StructureOps(diff.structure, n))
  {
    if n > 0 {
      var kind := KINDS[n - 1];
      var rest, last := StructureOps(diff.structure, n - 1), Tag(Element(kind), diff.structure.Of(kind));
      StructureOpsShaped(diff, n - 1);
      assert forall e | e in rest :: e.slot != Element(kind) by {
        StructureMembers(diff, n - 1);
        assert kind !in KINDS[..n - 1];
      }
      ShapedTag(diff, kind);
      ShapedTagsConcat(rest, last, Element(kind));
    }
  }

  lemma ShapedTag(diff: SeriesDiff, kind: Kind)
    requires ShapedDiff(diff)
    ensures ShapedTags(Tag(Element(kind), diff.structure.Of(kind)))
  {
    assert WellShaped(diff.In(Element(kind)));
  }

  lemma ShapedTagsConcat(a: seq<Tagged>, b: seq<Tagged>, slot: Slot)
    requires ShapedTags(a) && ShapedTags(b) && forall e | e in a :: e.slot != slot
    requires forall i | 0 <= i < |b| :: b[i].slot == slot
    ensures ShapedTags(a + b)
  {
    assert forall i | 0 <= i < |a| :: a[i] in a;
  }

  lemma {:induction false} PickedDistinct(elems: seq<Tagged>, kind: OpKind)
    requires ShapedTags(elems)
    ensures DistinctPaths(Picked(elems, kind))
  {
    if elems != [] {
      var n := |elems| - 1;
      PickedDistinct(elems[..n], kind);
      var rest := Picked(elems[..n], kind);
      forall k | 0 <= k < |rest| && elems[n].op.kind == kind
        ensures rest[k].slot != elems[n].slot || rest[k].op.id != elems[n].op.id
      {
        assert rest[k] in rest;
        var i :| 0 <= i < n && elems[i] == rest[k];
      }
    }
  }

  function ElementOps(diff: SeriesDiff): seq<Tagged> { StructureOps(diff.structure) }
  function ConsumerOps(diff: SeriesDiff): seq<Tagged> { Tag(ConsumerSlot, diff.consumers) }
  function IndexOps(diff: SeriesDiff): seq<Tagged> { Tag(IndexSlot, diff.indexes) }

  /** Everything the bucket methods ask of a list. */
  ghost predicate Sendable(series: string, elems: seq<Tagged>) {
    && (forall kind :: DistinctPaths(Picked(elems, kind)))
    && Paths(series, Picked(elems, Create)) !! Paths(series, Picked(elems, Update))
  }

  lemma ShapedSendable(series: string, elems: seq<Tagged>)
    requires ShapedTags(elems)
    ensures Sendable(series, elems)
  {
    forall kind ensures DistinctPaths(Picked(elems, kind)) {
      PickedDistinct(elems, kind);
    }
    forall x, y | x in Picked(elems, Create) && y in Picked(elems, Update)
      ensures PathOf(series, x) != PathOf(series, y)
    {
      var i :| 0 <= i < |elems| && elems[i] == x;
      var j :| 0 <= j < |elems| && elems[j] == y;
    }
  }

  lemma DiffSendable(diff: SeriesDiff)
    requires ShapedDiff(diff)
    ensures Sendable(diff.id, ElementOps(diff)) && Sendable(diff.id, ConsumerOps(diff))
            && Sendable(diff.id, IndexOps(diff))
    ensures forall e :: e in ElementOps(diff) <==> e.slot.Element? && e.op in diff.In(e.slot)
    ensures forall e :: e in ConsumerOps(diff) <==> e.slot == ConsumerSlot && e.op in diff.In(e.slot)
    ensures forall e :: e in IndexOps(diff) <==> e.slot == IndexSlot && e.op in diff.In(e.slot)
  {
    StructureOpsShaped(diff, |KINDS|);
    StructureMembers(diff, |KINDS|);
    AllKinds();
    assert WellShaped(diff.In(ConsumerSlot)) && WellShaped(diff.In(IndexSlot));
    ShapedSendable(diff.id, ElementOps(diff));
    ShapedSendable(diff.id, ConsumerOps(diff));
    ShapedSendable(diff.id, IndexOps(diff));
    TagMembers(ConsumerSlot, diff.consumers);
    TagMembers(IndexSlot, diff.indexes);
  }

  lemma AllKinds()
    ensures KINDS[..|KINDS|] == KINDS && forall kind :: kind in KINDS
  {
    assert KINDS[0] == FloatFact && KINDS[1] == StringFact && KINDS[2] == TextFact && KINDS[3] == TimestampFact &&
           KINDS[4] == ImageFact && KINDS[5] == FileFact && KINDS[6] == JsonFact && KINDS[7] == BooleanFact &&
           KINDS[8] == Dim;
    forall kind ensures kind in KINDS {
      match kind {
        case FloatFact => case StringFact => case TextFact => case TimestampFact => case ImageFact =>
        case FileFact => case JsonFact => case BooleanFact => case Dim =>
      }
    }
  }

  lemma TagMembers(slot: Slot, ops: seq<Op<Content>>)
    ensures forall e :: e in Tag(slot, ops) <==> e.slot == slot && e.op in ops
  {
  }

  /** The children the first phase removes. */
  function Dropped(diff: SeriesDiff): set<Path> {
    Paths(diff.id, Picked(IndexOps(diff), Delete)) + Paths(diff.id, Picked(ElementOps(diff), Delete)) +
    Paths(diff.id, Picked(ConsumerOps(diff), Delete))
  }

  /** The first phase goes through for a diff exactly when what it removes is there and no index
      that stays points at an element that goes. */
  ghost predicate DropsFit(reg: Registry, items: map<Path, Content>, diff: SeriesDiff) {
    && diff.id in reg.known && (Dropped(diff) != {} ==> diff.id in reg.open)
    && Removable(items, Dropped(diff))
  }

  /** What is to be removed is there, and no index that stays points at an element that goes. */
  ghost predicate Removable(items: map<Path, Content>, gone: set<Path>) {
    && gone <= items.Keys
    && forall p, q | p in gone && p.slot.Element? && Points(items, q, p) :: q in gone
  }

  ghost predicate AllDeletable(items: map<Path, Content>, paths: set<Path>) {
    forall p | p in paths :: Deletable(items, p)
  }

  /** The children the last phase writes, in order. */
  function AllWritten(diff: SeriesDiff): seq<Tagged> {
    Written(ElementOps(diff)) + Written(ConsumerOps(diff)) + Written(IndexOps(diff))
  }

  /** What the last phase needs for a diff; indexes are looked at once the elements are written. */
  ghost predicate WritesFit(reg: Registry, items: map<Path, Content>, diff: SeriesDiff) {
    && diff.id in reg.known && (AllWritten(diff) != [] ==> diff.id in reg.open)
    && ElemsFit(reg, items, diff.id, ElementOps(diff))
    && ElemsFit(reg, items, diff.id, ConsumerOps(diff))
    && forall after | Wrote(items, after, diff.id, Written(ElementOps(diff)) + Written(ConsumerOps(diff))) ::
         ElemsFit(reg, after, diff.id, IndexOps(diff))
  }

  /** Three removals in a row, each checked against what the earlier ones left. */
  lemma RemovalsInSteps(items: map<Path, Content>, i: set<Path>, s: set<Path>, c: set<Path>)
    requires forall p | p in items :: Typed(p.slot, items[p])
    requires (forall p | p in i :: p.slot == IndexSlot) && (forall p | p in s :: p.slot.Element?)
    requires forall p | p in c :: p.slot == ConsumerSlot
    ensures AllDeletable(items, i) && AllDeletable(items - i, s) && AllDeletable(items - i - s, c) <==>
            Removable(items, i + s + c)
    ensures items - i - s - c == items - (i + s + c)
  {
    var all := i + s + c;
    assert forall q, p :: Points(items - i, q, p) <==> Points(items, q, p) && q !in i;
    forall q, p | Points(items, q, p) ensures q in all <==> q in i {
      assert Typed(q.slot, items[q]);
    }
    assert AllDeletable(items - i, s) <==> s <= items.Keys && forall p, q | p in s && Points(items, q, p) :: q in i;
    assert AllDeletable(items - i - s, c) <==> c <= items.Keys;
  }

  lemma DropSlots(diff: SeriesDiff)
    requires ShapedDiff(diff)
    ensures forall p | p in Paths(diff.id, Picked(IndexOps(diff), Delete)) :: p.slot == IndexSlot
    ensures forall p | p in Paths(diff.id, Picked(ElementOps(diff), Delete)) :: p.slot.Element?
    ensures forall p | p in Paths(diff.id, Picked(ConsumerOps(diff), Delete)) :: p.slot == ConsumerSlot
  {
    DiffSendable(diff);
  }

  /** Deleting the children of one kind goes through. */
  ghost predicate SlotDropsFit(reg: Registry, items: map<Path, Content>, series: string, deletes: seq<Tagged>) {
    (deletes != [] ==> series in reg.open) && forall e | e in deletes :: Deletable(items, PathOf(series, e))
  }

  lemma SlotDropsByPath(reg: Registry, items: map<Path, Content>, series: string, deletes: seq<Tagged>)
    ensures SlotDropsFit(reg, items, series, deletes) <==>
            (Paths(series, deletes) != {} ==> series in reg.open) && AllDeletable(items, Paths(series, deletes))
  {
    if deletes != [] {
      assert deletes[0] in deletes && PathOf(series, deletes[0]) in Paths(series, deletes);
    }
    forall e | e in deletes ensures PathOf(series, e) in Paths(series, deletes) {
    }
  }

  lemma DropsInSteps(reg: Registry, items: map<Path, Content>, diff: SeriesDiff,
                     i: seq<Tagged>, s: seq<Tagged>, c: seq<Tagged>)
    requires (forall p | p in items :: Typed(p.slot, items[p])) && ShapedDiff(diff) && diff.id in reg.known
    requires i == Picked(IndexOps(diff), Delete) && s == Picked(ElementOps(diff), Delete)
    requires c == Picked(ConsumerOps(diff), Delete)
    ensures DropsFit(reg, items, diff) <==>
            && SlotDropsFit(reg, items, diff.id, i)
            && SlotDropsFit(reg, items - Paths(diff.id, i), diff.id, s)
            && SlotDropsFit(reg, items - Paths(diff.id, i) - Paths(diff.id, s), diff.id, c)
    ensures items - Paths(diff.id, i) - Paths(diff.id, s) - Paths(diff.id, c) == items - Dropped(diff)
  {
    DropSlots(diff);
    var pi, ps, pc := Paths(diff.id, i), Paths(diff.id, s), Paths(diff.id, c);
    assert Dropped(diff) == pi + ps + pc;
    RemovalsInSteps(items, pi, ps, pc);
    SlotDropsByPath(reg, items, diff.id, i);
    SlotDropsByPath(reg, items - pi, diff.id, s);
    SlotDropsByPath(reg, items - pi - ps, diff.id, c);
  }

  // ---------- all diffs ----------

  /** What the diff functions promise about the form of a list of diffs. */
  ghost predicate WellFormed(diffs: seq<SeriesDiff>) {
    && (forall i, j | 0 <= i < j < |diffs| :: diffs[i].id != diffs[j].id)
    && (forall d | d in diffs ::
        ShapedDiff(d) && WellShaped(d.groups) && (d.series.Some? ==> d.series.value.id == d.id))
  }

  /** Created DataSeries have no deletions. */
  function DroppedBy(diffs: seq<SeriesDiff>): set<Path> {
    set d, p | d in diffs && !d.SeriesOp(Create) && p in Dropped(d) :: p
  }

  lemma DroppedOwn(diff: SeriesDiff)
    ensures forall p | p in Dropped(diff) :: p.series == diff.id
  {
  }

  /** What happens in other DataSeries does not matter. */
  lemma DropsFitElsewhere(reg: Registry, items: map<Path, Content>, gone: set<Path>, diff: SeriesDiff)
    requires forall p | p in gone :: p.series != diff.id
    ensures DropsFit(reg, items - gone, diff) <==> DropsFit(reg, items, diff)
  {
    DroppedOwn(diff);
    assert forall q, p | p in Dropped(diff) :: Points(items - gone, q, p) <==> Points(items, q, p) by {
      forall q, p | p in Dropped(diff) && Points(items, q, p) ensures q !in gone {
        assert q.series == p.series;
      }
    }
  }

  lemma DroppedByMore(diffs: seq<SeriesDiff>, i: nat)
    requires i < |diffs| && WellFormed(diffs)
    ensures DroppedBy(diffs[..i + 1]) ==
            DroppedBy(diffs[..i]) + if diffs[i].SeriesOp(Create) then {} else Dropped(diffs[i])
    ensures forall p | p in DroppedBy(diffs[..i]) :: p.series != diffs[i].id
    ensures forall d :: d in diffs[..i + 1] <==> d in diffs[..i] || d == diffs[i]
  {
    assert diffs[..i + 1] == diffs[..i] + [diffs[i]];
    forall p | p in DroppedBy(diffs[..i]) ensures p.series != diffs[i].id {
      var d :| d in diffs[..i] && p in Dropped(d);
      DroppedOwn(d);
    }
  }

  /** DataSeries to be deleted. */
  function Dead(diffs: seq<SeriesDiff>): set<string> {
    set d | d in diffs && d.SeriesOp(Delete) :: d.id
  }

  function BareOps(diffs: seq<SeriesDiff>): seq<Op<Body>> {
    if diffs == [] then []
    else
      var last := diffs[|diffs| - 1];
      var rest := BareOps(diffs[..|diffs| - 1]);
      if last.series.Some? then rest + [last.series.value] else rest
  }

  lemma {:induction false} BareOpsShaped(diffs: seq<SeriesDiff>)
    requires WellFormed(diffs)
    ensures forall op :: op in BareOps(diffs) <==> exists d :: d in diffs && d.series == Some(op)
    ensures WellShaped(BareOps(diffs))
  {
    if diffs != [] {
      var n := |diffs| - 1;
      var last := diffs[n];
      assert diffs == diffs[..n] + [last];
      BareOpsShaped(diffs[..n]);
      if last.series.Some? {
        ShapedSnoc(BareOps(diffs[..n]), last.series.value);
      }
      assert forall d :: d in diffs <==> d in diffs[..n] || d == last;
    }
  }

  /** When a DataSeries is deleted, every dimension of another one that refers to it belongs to one deleted before. */
  ghost predicate FreeInOrder(items: map<Path, Content>, deletes: seq<Op<Body>>) {
    forall j, p | 0 <= j < |deletes| && Refers(items, p, deletes[j].id) && p.series != deletes[j].id ::
      p.series in OpIds(deletes[..j])
  }

  lemma BareOpsMore(diffs: seq<SeriesDiff>, i: nat, kind: OpKind)
    requires i < |diffs|
    ensures OfKind(BareOps(diffs[..i + 1]), kind) ==
            var rest := OfKind(BareOps(diffs[..i]), kind);
            if diffs[i].SeriesOp(kind) then rest + [diffs[i].series.value] else rest
  {
    assert diffs[..i + 1][..i] == diffs[..i];
    if diffs[i].series.Some? {
      OfKindSnoc(BareOps(diffs[..i]), diffs[i].series.value, kind);
    }
  }

  ghost predicate DeletesFit(bodies: map<string, Body>, locked: set<string>, items: map<Path, Content>,
                             deletes: seq<Op<Body>>)
  {
    && AllAccepted(bodies, deletes)
    && (forall op | op in deletes :: op.id in RegistryOf(bodies, locked).open)
    && FreeInOrder(items, deletes)
  }

  ghost predicate SeriesCreatesFit(bodies: map<string, Body>, creates: seq<Op<Body>>) {
    AllAccepted(bodies, creates) && forall op | op in creates :: !Deprecated(op.payload.backend)
  }

  ghost predicate SeriesUpdatesFit(bodies: map<string, Body>, locked: set<string>, updates: seq<Op<Body>>) {
    && AllAccepted(bodies, updates)
    && forall op | op in updates :: op.id in RegistryOf(bodies, locked).open && !Deprecated(op.payload.backend)
  }

  /** What the operations on the DataSeries themselves need. */
  ghost predicate BareFits(bodies: map<string, Body>, locked: set<string>, items: map<Path, Content>,
                           diffs: seq<SeriesDiff>)
  {
    && Admissible(bodies, BareOps(diffs))
    && FreeInOrder(items, OfKind(BareOps(diffs), Delete))
    && (forall op | op in BareOps(diffs) && op.kind != Create :: op.id in RegistryOf(bodies, locked).open)
    && (forall op | op in BareOps(diffs) && op.kind != Delete :: !Deprecated(op.payload.backend))
  }

  /** The DataSeries that updates lock for the rest of the push. */
  function Locks(bodies: map<string, Body>, slow: set<string>, updates: seq<Op<Body>>): set<string> {
    set op | op in updates && op.id in slow && op.id in bodies && bodies[op.id].backend != op.payload.backend :: op.id
  }

  function LockedAfter(bodies: map<string, Body>, locked: set<string>, slow: set<string>,
                       diffs: seq<SeriesDiff>): set<string>
  {
    locked - Dead(diffs) + Locks(bodies, slow, OfKind(BareOps(diffs), Update))
  }

  /** The DataSeries there are once the operations on them are done. */
  function RegistryAfter(bodies: map<string, Body>, locked: set<string>, slow: set<string>,
                         diffs: seq<SeriesDiff>): Registry
  {
    RegistryOf(PerformAll(bodies, BareOps(diffs)), LockedAfter(bodies, locked, slow, diffs))
  }

  lemma DeleteStep(bodies: map<string, Body>, locked: set<string>, items: map<Path, Content>, deletes: seq<Op<Body>>,
                   j: nat)
    requires j < |deletes| && DistinctIds(deletes) && forall op | op in deletes :: op.kind == Delete
    ensures deletes[..j + 1] == deletes[..j] + [deletes[j]]
            && OpIds(deletes[..j + 1]) == OpIds(deletes[..j]) + {deletes[j].id}
    ensures PerformAll(bodies, deletes[..j + 1]) == PerformAll(bodies, deletes[..j]) - {deletes[j].id}
    ensures DeletesFit(bodies, locked, items, deletes[..j + 1]) <==>
            && DeletesFit(bodies, locked, items, deletes[..j])
            && deletes[j].id in RegistryOf(PerformAll(bodies, deletes[..j]), locked - OpIds(deletes[..j])).open
            && !Referenced(Outside(items, OpIds(deletes[..j])), deletes[j].id)
    ensures DeletesFit(bodies, locked, items, deletes) ==> DeletesFit(bodies, locked, items, deletes[..j + 1])
  {
    AcceptedAt(bodies, deletes, j);
    var id, gone := deletes[j].id, OpIds(deletes[..j]);
    assert deletes[j] in deletes && deletes[..j + 1] == deletes[..j] + [deletes[j]];
    assert id !in gone;
    NotNamed(bodies, deletes[..j], id);
    FreeStep(items, deletes, j);
  }

  lemma FreeStep(items: map<Path, Content>, deletes: seq<Op<Body>>, j: nat)
    requires j < |deletes|
    ensures FreeInOrder(items, deletes[..j + 1]) <==>
            FreeInOrder(items, deletes[..j]) && !Referenced(Outside(items, OpIds(deletes[..j])), deletes[j].id)
    ensures FreeInOrder(items, deletes) ==> FreeInOrder(items, deletes[..j + 1])
  {
    FreePrefix(items, deletes, j);
    FreePrefix(items, deletes, j + 1);
    var id, gone := deletes[j].id, OpIds(deletes[..j]);
    assert forall p :: Refers(Outside(items, gone), p, id) <==> Refers(items, p, id) && p.series !in gone;
  }

  /** What freeness asks of the first deletions. */
  lemma FreePrefix(items: map<Path, Content>, deletes: seq<Op<Body>>, n: nat)
    requires n <= |deletes|
    ensures FreeInOrder(items, deletes[..n]) <==>
            forall i, p | 0 <= i < n && Refers(items, p, deletes[i].id) && p.series != deletes[i].id ::
              p.series in OpIds(deletes[..i])
  {
    assert forall i | 0 <= i < n :: deletes[..n][i] == deletes[i] && deletes[..n][..i] == deletes[..i];
  }

  lemma CreateStep(bodies: map<string, Body>, creates: seq<Op<Body>>, j: nat)
    requires j < |creates| && forall op | op in creates :: op.kind == Create
    ensures creates[..j + 1] == creates[..j] + [creates[j]]
    ensures PerformAll(bodies, creates[..j + 1]) ==
            PerformAll(bodies, creates[..j])[creates[j].id := creates[j].payload]
    ensures SeriesCreatesFit(bodies, creates[..j + 1]) <==>
            && SeriesCreatesFit(bodies, creates[..j])
            && creates[j].id !in PerformAll(bodies, creates[..j]) && !Deprecated(creates[j].payload.backend)
    ensures SeriesCreatesFit(bodies, creates) ==> SeriesCreatesFit(bodies, creates[..j + 1])
  {
    AcceptedAt(bodies, creates, j);
    assert creates[j] in creates && creates[..j + 1] == creates[..j] + [creates[j]];
  }

  lemma UpdateStep(bodies: map<string, Body>, locked: set<string>, slow: set<string>, updates: seq<Op<Body>>, j: nat)
    requires j < |updates| && DistinctIds(updates) && forall op | op in updates :: op.kind == Update
    ensures var before, op := PerformAll(bodies, updates[..j]), updates[j];
            var locks := locked + Locks(bodies, slow, updates[..j]);
            && updates[..j + 1] == updates[..j] + [op]
            && PerformAll(bodies, updates[..j + 1]) == before[op.id := op.payload]
            && (SeriesUpdatesFit(bodies, locked, updates[..j + 1]) <==>
                  && SeriesUpdatesFit(bodies, locked, updates[..j])
                  && op.id in RegistryOf(before, locks).open && !Deprecated(op.payload.backend))
            && (op.id in before ==>
                  locked + Locks(bodies, slow, updates[..j + 1]) ==
                  (if before[op.id].backend != op.payload.backend && op.id in slow then locks + {op.id} else locks))
    ensures SeriesUpdatesFit(bodies, locked, updates) ==> SeriesUpdatesFit(bodies, locked, updates[..j + 1])
  {
    AcceptedAt(bodies, updates, j);
    var op := updates[j];
    assert op in updates && updates[..j + 1] == updates[..j] + [op];
    assert op.id !in OpIds(updates[..j]);
    NotNamed(bodies, updates[..j], op.id);
    assert op.id !in Locks(bodies, slow, updates[..j]);
  }

  lemma DeadAreDeleted(diffs: seq<SeriesDiff>)
    requires WellFormed(diffs)
    ensures OpIds(OfKind(BareOps(diffs), Delete)) == Dead(diffs)
  {
    BareOpsShaped(diffs);
    var d := OfKind(BareOps(diffs), Delete);
    forall id ensures id in OpIds(d) <==> id in Dead(diffs) {
      if id in Dead(diffs) {
        var x :| x in diffs && x.SeriesOp(Delete) && x.id == id;
        assert x.series == Some(x.series.value);
        assert x.series.value in d;
      }
      if id in OpIds(d) {
        var op :| op in d && op.id == id;
        var x :| x in diffs && x.series == Some(op);
        assert x.SeriesOp(Delete) && x.id == id;
      }
    }
  }

  /** Deletions, then the rest, do what the operations do in the order of the diffs. */
  lemma BareInOrder(bodies: map<string, Body>, items: map<Path, Content>, diffs: seq<SeriesDiff>,
                    d: seq<Op<Body>>, c: seq<Op<Body>>, u: seq<Op<Body>>)
    requires WellFormed(diffs) && d == OfKind(BareOps(diffs), Delete)
    requires c == OfKind(BareOps(diffs), Create) && u == OfKind(BareOps(diffs), Update)
    ensures OpIds(d) == Dead(diffs) && DistinctIds(d) && DistinctIds(u)
    ensures OpIds(d) !! OpIds(u) && OpIds(c) !! OpIds(u)
    ensures PerformAll(PerformAll(bodies, d), c + u) == PerformAll(bodies, BareOps(diffs))
    ensures Admissible(bodies, BareOps(diffs)) <==> AllAccepted(bodies, d) && AllAccepted(PerformAll(bodies, d), c + u)
  {
    BareOpsShaped(diffs);
    DeadAreDeleted(diffs);
    DeletionsFirst(bodies, BareOps(diffs), d, c + u);
    BucketDistinct(BareOps(diffs), Delete);
    BucketDistinct(BareOps(diffs), Update);
    KindsTogether(BareOps(diffs));
    forall x, y | x in BareOps(diffs) && y in u && x.kind != Update ensures x.id != y.id {
      assert y in BareOps(diffs) && y.kind == Update;
    }
  }

  /** What has to hold for the operations on DataSeries, batch by batch. */
  lemma BareInBatches(bodies: map<string, Body>, locked: set<string>, items: map<Path, Content>, diffs: seq<SeriesDiff>,
                      d: seq<Op<Body>>, c: seq<Op<Body>>, u: seq<Op<Body>>)
    requires WellFormed(diffs) && d == OfKind(BareOps(diffs), Delete)
    requires c == OfKind(BareOps(diffs), Create) && u == OfKind(BareOps(diffs), Update)
    ensures var middle := PerformAll(bodies, d);
            var late := PerformAll(middle, c);
            BareFits(bodies, locked, items, diffs) <==>
              && DeletesFit(bodies, locked, items, d) && SeriesCreatesFit(middle, c)
              && SeriesUpdatesFit(late, locked - Dead(diffs), u)
  {
    BareInOrder(bodies, items, diffs, d, c, u);
    var middle := PerformAll(bodies, d);
    var late := PerformAll(middle, c);
    PerformConcat(middle, c, u);
    assert AllAccepted(middle, c + u) <==> AllAccepted(middle, c) && AllAccepted(late, u);
    UpdatedUnmoved(bodies, locked, d, c, u);
    SplitByKind(bodies, locked, BareOps(diffs), d, c, u);
  }

  /** Deletions, creations and updates, one batch after the other: what each needs, and what all leave. */
  lemma BarePlan(bodies: map<string, Body>, locked: set<string>, slow: set<string>, items: map<Path, Content>,
                 diffs: seq<SeriesDiff>, d: seq<Op<Body>>, c: seq<Op<Body>>, u: seq<Op<Body>>)
    requires WellFormed(diffs) && d == OfKind(BareOps(diffs), Delete)
    requires c == OfKind(BareOps(diffs), Create) && u == OfKind(BareOps(diffs), Update)
    ensures OpIds(d) == Dead(diffs) && DistinctIds(d) && DistinctIds(u)
    ensures var middle := PerformAll(bodies, d);
            var late := PerformAll(middle, c);
            && (BareFits(bodies, locked, items, diffs) <==>
                  && DeletesFit(bodies, locked, items, d) && SeriesCreatesFit(middle, c)
                  && SeriesUpdatesFit(late, locked - Dead(diffs), u))
            && PerformAll(late, u) == PerformAll(bodies, BareOps(diffs))
            && locked - Dead(diffs) + Locks(late, slow, u) == LockedAfter(bodies, locked, slow, diffs)
  {
    BareInOrder(bodies, items, diffs, d, c, u);
    BareInBatches(bodies, locked, items, diffs, d, c, u);
    UpdatedUnmoved(bodies, locked, d, c, u);
    PerformConcat(PerformAll(bodies, d), c, u);
  }

  /** Deletions and creations of others leave what is updated alone. */
  lemma UpdatedUnmoved(bodies: map<string, Body>, locked: set<string>, d: seq<Op<Body>>, c: seq<Op<Body>>,
                       u: seq<Op<Body>>)
    requires OpIds(d) !! OpIds(u) && OpIds(c) !! OpIds(u)
    ensures var late := PerformAll(PerformAll(bodies, d), c);
            && (forall op | op in u ::
                  op.id in RegistryOf(late, locked - OpIds(d)).open <==> op.id in RegistryOf(bodies, locked).open)
            && (forall slow :: Locks(late, slow, u) == Locks(bodies, slow, u))
  {
    var late := PerformAll(PerformAll(bodies, d), c);
    forall op | op in u ensures At(late, op.id) == At(bodies, op.id) && op.id !in OpIds(d) {
      assert op.id in OpIds(u);
      NotNamed(bodies, d, op.id);
      NotNamed(PerformAll(bodies, d), c, op.id);
    }
  }

  lemma SplitByKind(bodies: map<string, Body>, locked: set<string>, ops: seq<Op<Body>>,
                    d: seq<Op<Body>>, c: seq<Op<Body>>, u: seq<Op<Body>>)
    requires d == OfKind(ops, Delete) && c == OfKind(ops, Create) && u == OfKind(ops, Update)
    ensures var open := RegistryOf(bodies, locked).open;
            && ((forall op | op in ops && op.kind != Create :: op.id in open) <==>
                  (forall op | op in d :: op.id in open) && (forall op | op in u :: op.id in open))
            && ((forall op | op in ops && op.kind != Delete :: !Deprecated(op.payload.backend)) <==>
                  && (forall op | op in c :: !Deprecated(op.payload.backend))
                  && (forall op | op in u :: !Deprecated(op.payload.backend)))
  {
    assert forall op :: op in ops <==> op in d || op in c || op in u;
  }

  lemma OutsideInSteps(items: map<Path, Content>, grants: map<(string, string), set<string>>, gone: set<string>,
                       id: string)
    ensures Outside(Outside(items, gone), {id}) == Outside(items, gone + {id})
    ensures GrantsOutside(GrantsOutside(grants, gone), {id}) == GrantsOutside(grants, gone + {id})
    ensures Referenced(Outside(items, gone), id) ==> Referenced(items, id)
  {
  }

  /** What deleting some DataSeries leaves. */
  ghost predicate AfterDeletes(bodies: map<string, Body>, locked: set<string>, items: map<Path, Content>,
                               grants: map<(string, string), set<string>>, deletes: seq<Op<Body>>,
                               bodies': map<string, Body>, locked': set<string>, items': map<Path, Content>,
                               grants': map<(string, string), set<string>>)
  {
    && bodies' == PerformAll(bodies, deletes) && locked' == locked - OpIds(deletes)
    && items' == Outside(items, OpIds(deletes)) && grants' == GrantsOutside(grants, OpIds(deletes))
  }

  lemma AfterDeletesMore(bodies: map<string, Body>, locked: set<string>, items: map<Path, Content>,
                         grants: map<(string, string), set<string>>, deletes: seq<Op<Body>>, j: nat)
    requires j < |deletes| && DistinctIds(deletes) && forall op | op in deletes :: op.kind == Delete
    ensures var gone, id := OpIds(deletes[..j]), deletes[j].id;
            AfterDeletes(bodies, locked, items, grants, deletes[..j + 1],
                         PerformAll(bodies, deletes[..j]) - {id}, locked - gone - {id},
                         Outside(Outside(items, gone), {id}), GrantsOutside(GrantsOutside(grants, gone), {id}))
  {
    DeleteStep(bodies, locked, items, deletes, j);
    OutsideInSteps(items, grants, OpIds(deletes[..j]), deletes[j].id);
  }

  // ---------- the last phase ----------

  /** The two states agree on one DataSeries. */
  ghost predicate SameSeries(a: map<Path, Content>, b: map<Path, Content>, series: string) {
    forall p: Path | p.series == series :: At(a, p) == At(b, p)
  }

  /** What a child needs concerns its own DataSeries only. */
  lemma ElemsFitLocal(reg: Registry, a: map<Path, Content>, b: map<Path, Content>, series: string, elems: seq<Tagged>)
    requires SameSeries(a, b, series)
    ensures ElemsFit(reg, a, series, elems) <==> ElemsFit(reg, b, series, elems)
  {
  }

  lemma WritesFitLocal(reg: Registry, a: map<Path, Content>, b: map<Path, Content>, diff: SeriesDiff)
    requires SameSeries(a, b, diff.id)
    ensures WritesFit(reg, a, diff) <==> WritesFit(reg, b, diff)
  {
    ElemsFitLocal(reg, a, b, diff.id, ElementOps(diff));
    ElemsFitLocal(reg, a, b, diff.id, ConsumerOps(diff));
    if WritesFit(reg, a, diff) {
      IndexesFitLocal(reg, a, b, diff);
    }
    if WritesFit(reg, b, diff) {
      IndexesFitLocal(reg, b, a, diff);
    }
  }

  lemma IndexesFitLocal(reg: Registry, a: map<Path, Content>, b: map<Path, Content>, diff: SeriesDiff)
    requires SameSeries(a, b, diff.id) && WritesFit(reg, a, diff)
    ensures forall after | Wrote(b, after, diff.id, Written(ElementOps(diff)) + Written(ConsumerOps(diff))) ::
              ElemsFit(reg, after, diff.id, IndexOps(diff))
  {
    var first := Written(ElementOps(diff)) + Written(ConsumerOps(diff));
    forall after | Wrote(b, after, diff.id, first)
      ensures ElemsFit(reg, after, diff.id, IndexOps(diff))
    {
      var there := Elsewhere(a, after, diff.id);
      assert SameSeries(there, after, diff.id);
      assert Wrote(a, there, diff.id, first) by {
        forall p | p !in Paths(diff.id, first) ensures At(there, p) == At(a, p) {
          if p.series == diff.id { assert At(after, p) == At(b, p); }
        }
      }
      ElemsFitLocal(reg, there, after, diff.id, IndexOps(diff));
    }
  }

  /** One DataSeries of `here`, all others of `items`. */
  function Elsewhere(items: map<Path, Content>, here: map<Path, Content>, series: string): (r: map<Path, Content>)
    ensures forall p :: At(r, p) == At(if p.series == series then here else items, p)
  {
    (map p | p in items && p.series != series :: items[p]) + (map p | p in here && p.series == series :: here[p])
  }

  /** The children of one DataSeries are those of before, overwritten with what its diff writes. */
  ghost predicate WroteHere(before: map<Path, Content>, after: map<Path, Content>, diff: SeriesDiff) {
    && (forall e | e in AllWritten(diff) :: At(after, PathOf(diff.id, e)) == Some(e.op.payload))
    && (forall p: Path | p.series == diff.id && p !in Paths(diff.id, AllWritten(diff)) :: At(after, p) == At(before, p))
  }

  function Live(diffs: seq<SeriesDiff>): set<string> {
    set d | d in diffs && !d.SeriesOp(Delete) :: d.id
  }

  ghost predicate WroteAll(before: map<Path, Content>, after: map<Path, Content>, diffs: seq<SeriesDiff>) {
    && (forall d | d in diffs && !d.SeriesOp(Delete) :: WroteHere(before, after, d))
    && (forall p: Path | p.series !in Live(diffs) :: At(after, p) == At(before, p))
  }

  lemma LiveMore(diffs: seq<SeriesDiff>, i: nat)
    requires i < |diffs| && WellFormed(diffs)
    ensures Live(diffs[..i + 1]) == Live(diffs[..i]) + if diffs[i].SeriesOp(Delete) then {} else {diffs[i].id}
    ensures diffs[i].id !in Live(diffs[..i])
    ensures forall d :: d in diffs[..i + 1] <==> d in diffs[..i] || d == diffs[i]
    ensures forall d | d in diffs[..i] :: d.id != diffs[i].id
  {
  }

  lemma WroteAllMore(before: map<Path, Content>, middle: map<Path, Content>, after: map<Path, Content>,
                     diffs: seq<SeriesDiff>, i: nat)
    requires i < |diffs| && WellFormed(diffs) && WroteAll(before, middle, diffs[..i])
    requires if diffs[i].SeriesOp(Delete) then after == middle
             else Wrote(middle, after, diffs[i].id, AllWritten(diffs[i]))
    ensures WroteAll(before, after, diffs[..i + 1])
  {
    LiveMore(diffs, i);
    if !diffs[i].SeriesOp(Delete) {
      forall p: Path | p.series != diffs[i].id ensures At(after, p) == At(middle, p) {
        assert p !in Paths(diffs[i].id, AllWritten(diffs[i]));
      }
      forall d | d in diffs[..i] && !d.SeriesOp(Delete) ensures WroteHere(before, after, d) {
        assert WroteHere(before, middle, d);
      }
    }
  }

  lemma WroteAllUntouched(before: map<Path, Content>, after: map<Path, Content>, diffs: seq<SeriesDiff>, series: string)
    requires WroteAll(before, after, diffs) && series !in Live(diffs)
    ensures SameSeries(before, after, series)
  {
  }

  // ---------- permissions ----------

  ghost predicate Granted(before: map<(string, string), set<string>>, after: map<(string, string), set<string>>,
                          id: string, ops: seq<Op<seq<string>>>)
  {
    && (forall op | op in ops && op.kind != Delete :: At(after, (id, op.id)) == Some(Elements(op.payload)))
    && (forall k: (string, string) | k.0 != id || !Writes(ops, k.1) :: At(after, k) == At(before, k))
  }

  ghost predicate GrantedAll(before: map<(string, string), set<string>>, after: map<(string, string), set<string>>,
                             diffs: seq<SeriesDiff>)
  {
    && (forall d, op | d in diffs && op in d.groups && op.kind != Delete ::
        At(after, (d.id, op.id)) == Some(Elements(op.payload)))
    && (forall k: (string, string) | (forall d | d in diffs && d.id == k.0 :: !Writes(d.groups, k.1)) ::
        At(after, k) == At(before, k))
  }

  ghost predicate GroupsFit(reg: Registry, groups: set<string>, diff: SeriesDiff) {
    forall op | op in diff.groups && op.kind != Delete :: diff.id in reg.open && op.id in groups
  }

  lemma GrantedMore(before: map<(string, string), set<string>>, after: map<(string, string), set<string>>, id: string,
                    ops: seq<Op<seq<string>>>, j: nat)
    requires j < |ops| && WellShaped(ops) && Granted(before, after, id, ops[..j])
    ensures Granted(before,
                    if ops[j].kind == Delete then after else after[(id, ops[j].id) := Elements(ops[j].payload)],
                    id, ops[..j + 1])
  {
  }

  lemma GrantedAllMore(before: map<(string, string), set<string>>, middle: map<(string, string), set<string>>,
                       after: map<(string, string), set<string>>, diffs: seq<SeriesDiff>, i: nat)
    requires i < |diffs| && WellFormed(diffs) && GrantedAll(before, middle, diffs[..i])
    requires Granted(middle, after, diffs[i].id, diffs[i].groups)
    ensures GrantedAll(before, after, diffs[..i + 1])
  {
  }

  lemma WrittenApart(diff: SeriesDiff)
    requires ShapedDiff(diff)
    ensures
      var e, c, i := Paths(diff.id, Written(ElementOps(diff))), Paths(diff.id, Written(ConsumerOps(diff))),
          Paths(diff.id, Written(IndexOps(diff)));
      e !! c && Paths(diff.id, Written(ElementOps(diff)) + Written(ConsumerOps(diff))) !! i
  {
    DiffSendable(diff);
  }

  lemma ConsumersFitLater(reg: Registry, before: map<Path, Content>, middle: map<Path, Content>, diff: SeriesDiff)
    requires ShapedDiff(diff) && Wrote(before, middle, diff.id, Written(ElementOps(diff)))
    ensures ElemsFit(reg, before, diff.id, ConsumerOps(diff)) <==> ElemsFit(reg, middle, diff.id, ConsumerOps(diff))
  {
    DiffSendable(diff);
    forall e | e in ConsumerOps(diff)
      ensures CreateFits(reg, before, diff.id, e) <==> CreateFits(reg, middle, diff.id, e)
      ensures UpdateFits(reg, before, diff.id, e) <==> UpdateFits(reg, middle, diff.id, e)
    {
      assert PathOf(diff.id, e) !in Paths(diff.id, Written(ElementOps(diff)));
      ConsumerFitsLater(reg, before, middle, diff.id, e);
    }
  }

  lemma ConsumerFitsLater(reg: Registry, before: map<Path, Content>, middle: map<Path, Content>, series: string,
                          e: Tagged)
    requires e.slot == ConsumerSlot && At(middle, PathOf(series, e)) == At(before, PathOf(series, e))
    ensures CreateFits(reg, before, series, e) <==> CreateFits(reg, middle, series, e)
    ensures UpdateFits(reg, before, series, e) <==> UpdateFits(reg, middle, series, e)
  {
  }

  lemma WritesOpen(reg: Registry, before: map<Path, Content>, after: map<Path, Content>, diff: SeriesDiff)
    requires ElemsFit(reg, before, diff.id, ElementOps(diff)) && ElemsFit(reg, before, diff.id, ConsumerOps(diff))
    requires ElemsFit(reg, after, diff.id, IndexOps(diff)) && AllWritten(diff) != []
    ensures diff.id in reg.open
  {
    if Written(ElementOps(diff)) != [] {
      WrittenOpen(reg, before, diff.id, ElementOps(diff));
    } else if Written(ConsumerOps(diff)) != [] {
      WrittenOpen(reg, before, diff.id, ConsumerOps(diff));
    } else {
      WrittenOpen(reg, after, diff.id, IndexOps(diff));
    }
  }

  /** A child that fits is written to a DataSeries that may be modified. */
  lemma WrittenOpen(reg: Registry, items: map<Path, Content>, series: string, elems: seq<Tagged>)
    requires ElemsFit(reg, items, series, elems) && Written(elems) != []
    ensures series in reg.open
  {
    assert Written(elems)[0] in Written(elems);
  }

  /** Once elements and consumers are written there is only one state the indexes can be looked at in. */
  lemma IndexesFitThen(reg: Registry, before: map<Path, Content>, after: map<Path, Content>, diff: SeriesDiff)
    requires Wrote(before, after, diff.id, Written(ElementOps(diff)) + Written(ConsumerOps(diff)))
    ensures (forall x | Wrote(before, x, diff.id, Written(ElementOps(diff)) + Written(ConsumerOps(diff))) ::
               ElemsFit(reg, x, diff.id, IndexOps(diff)))
            <==> ElemsFit(reg, after, diff.id, IndexOps(diff))
  {
    forall x | Wrote(before, x, diff.id, Written(ElementOps(diff)) + Written(ConsumerOps(diff))) ensures x == after {
      WroteOnce(before, x, after, diff.id, Written(ElementOps(diff)) + Written(ConsumerOps(diff)));
    }
  }

  lemma WroteOnce(before: map<Path, Content>, a: map<Path, Content>, b: map<Path, Content>, series: string,
                  elems: seq<Tagged>)
    requires Wrote(before, a, series, elems) && Wrote(before, b, series, elems)
    ensures a == b
  {
    forall p ensures At(a, p) == At(b, p) {
      if p in Paths(series, elems) {
        var e :| e in elems && PathOf(series, e) == p;
        assert At(a, PathOf(series, e)) == At(b, PathOf(series, e));
      }
    }
    SameAt(a, b);
  }

  // ---------- every moment of a push ----------

  /** After each of the requests in between there were only children in these places. */
  ghost predicate Stayed(before: seq<set<Path>>, after: seq<set<Path>>, room: set<Path>) {
    before <= after && forall i | |before| <= i < |after| :: after[i] <= room
  }

  lemma StayedMore(before: seq<set<Path>>, after: seq<set<Path>>, room: set<Path>, now: set<Path>)
    requires Stayed(before, after, room) && now <= room
    ensures Stayed(before, after + [now], room)
  {
  }

  lemma StayedOn(before: seq<set<Path>>, middle: seq<set<Path>>, after: seq<set<Path>>, a: set<Path>, b: set<Path>,
                 room: set<Path>)
    requires Stayed(before, middle, a) && Stayed(middle, after, b) && a <= room && b <= room
    ensures Stayed(before, after, room)
  {
    forall i | |before| <= i < |after| ensures after[i] <= room {
      if i < |middle| {
        assert after[i] == middle[i];
      }
    }
  }

  /** What a list of diffs creates or updates. */
  function WrittenBy(diffs: seq<SeriesDiff>): set<Path> {
    set d, e | d in diffs && !d.SeriesOp(Delete) && e in AllWritten(d) :: PathOf(d.id, e)
  }

  lemma WrittenByMore(diffs: seq<SeriesDiff>, i: nat)
    requires i < |diffs|
    ensures WrittenBy(diffs[..i]) <= WrittenBy(diffs)
    ensures !diffs[i].SeriesOp(Delete) ==> Paths(diffs[i].id, AllWritten(diffs[i])) <= WrittenBy(diffs)
  {
    assert diffs[i] in diffs && forall d | d in diffs[..i] :: d in diffs;
  }

  lemma WroteAllKeys(before: map<Path, Content>, after: map<Path, Content>, diffs: seq<SeriesDiff>)
    requires WroteAll(before, after, diffs)
    ensures after.Keys <= before.Keys + WrittenBy(diffs)
  {
    forall p | p in after ensures p in before || p in WrittenBy(diffs) {
      if p.series in Live(diffs) {
        var d :| d in diffs && !d.SeriesOp(Delete) && d.id == p.series;
        assert WroteHere(before, after, d);
        assert p in Paths(d.id, AllWritten(d)) || At(after, p) == At(before, p);
      } else {
        assert At(after, p) == At(before, p);
      }
    }
  }

  /** While a push removes, there is nothing that was not there before; while it writes, nothing but what is kept
      and what it writes. */
  ghost predicate StayedInTurn(before: seq<set<Path>>, after: seq<set<Path>>, items: map<Path, Content>,
                               diffs: seq<SeriesDiff>)
  {
    && before <= after
    && forall i | |before| <= i < |after| ::
         after[i] <= items.Keys || after[i] <= Kept(items, diffs).Keys + WrittenBy(diffs)
  }

  /** What is on the server between the deletions and the creations. */
  function Kept(items: map<Path, Content>, diffs: seq<SeriesDiff>): map<Path, Content> {
    Outside(items - DroppedBy(diffs), Dead(diffs))
  }

  // ---------- the push as a whole ----------

  /** What the server needs to have for a push to be accepted. */
  ghost predicate PushFits(bodies: map<string, Body>, locked: set<string>, slow: set<string>, items: map<Path, Content>,
                           groups: set<string>, diffs: seq<SeriesDiff>)
  {
    var after := RegistryAfter(bodies, locked, slow, diffs);
    && AllDropsFit(RegistryOf(bodies, locked), items, diffs)
    && BareFits(bodies, locked, items - DroppedBy(diffs), diffs)
    && AllWritesFit(after, Kept(items, diffs), diffs)
    && AllGroupsFit(after, groups, diffs)
  }

  ghost predicate AllDropsFit(reg: Registry, items: map<Path, Content>, diffs: seq<SeriesDiff>) {
    forall d | d in diffs && !d.SeriesOp(Create) :: DropsFit(reg, items, d)
  }

  ghost predicate AllWritesFit(reg: Registry, items: map<Path, Content>, diffs: seq<SeriesDiff>) {
    forall d | d in diffs && !d.SeriesOp(Delete) :: WritesFit(reg, items, d)
  }

  ghost predicate AllGroupsFit(reg: Registry, groups: set<string>, diffs: seq<SeriesDiff>) {
    forall d | d in diffs :: GroupsFit(reg, groups, d)
  }

  /** What a push leaves behind. */
  ghost predicate Pushed(bodies: map<string, Body>, items: map<Path, Content>,
                         grants: map<(string, string), set<string>>,
                         bodies': map<string, Body>, items': map<Path, Content>,
                         grants': map<(string, string), set<string>>,
                         diffs: seq<SeriesDiff>)
  {
    && bodies' == PerformAll(bodies, BareOps(diffs))
    && WroteAll(Kept(items, diffs), items', diffs)
    && GrantedAll(GrantsOutside(grants, Dead(diffs)), grants', diffs)
  }
}
