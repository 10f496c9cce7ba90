/** DataSeries definitions, and the diff between two collections of them. */
module Definitions {
  import opened Basics
  import opened ListDiff

  /** The nine kinds of structure elements. */
  datatype Kind =
    | FloatFact | StringFact | TextFact | TimestampFact | ImageFact | FileFact | JsonFact | BooleanFact | Dim

  /** Where a child of a DataSeries lives. */
  datatype Slot = Element(kind: Kind) | IndexSlot | ConsumerSlot

  datatype IndexTarget = IndexTarget(kind: Kind, id: string)

  /** A child without its external id. References name a DataSeries by external id;
      `body` stands for the fields the client only compares and copies. */
  datatype Content =
    | Fact(body: string)
    | Dimension(body: string, reference: string)
    | Index(body: string, targets: seq<IndexTarget>)
    | Consumer(body: string)

  predicate Typed(slot: Slot, c: Content) {
    match slot
    case Element(Dim) => c.Dimension?
    case Element(_) => c.Fact?
    case IndexSlot => c.Index?
    case ConsumerSlot => c.Consumer?
  }

  datatype PerKind<+T> = PerKind(
    floatFacts: T, stringFacts: T, textFacts: T, timestampFacts: T,
    imageFacts: T, fileFacts: T, jsonFacts: T, booleanFacts: T, dimensions: T)
  {
    function Of(kind: Kind): T {
      match kind
      case FloatFact => floatFacts
      case StringFact => stringFacts
      case TextFact => textFacts
      case TimestampFact => timestampFacts
      case ImageFact => imageFacts
      case FileFact => fileFacts
      case JsonFact => jsonFacts
      case BooleanFact => booleanFacts
      case Dim => dimensions
    }
  }

  /** Where the server keeps the data of a DataSeries. The last two are deprecated. */
  datatype Backend = FlatHistory | NoHistory | Materialized | V1

  predicate Deprecated(backend: Backend) {
    backend == Materialized || backend == V1
  }

  /** A DataSeries without its children: its backend, and the fields that are only compared and copied. */
  datatype Body = Body(backend: Backend, fields: string)

  datatype DataSeries = DataSeries(
    body: Body,
    structure: PerKind<seq<Entry<Content>>>,
    indexes: seq<Entry<Content>>,
    consumers: seq<Entry<Content>>,
    groups: seq<Entry<seq<string>>>)
  {
    function In(slot: Slot): seq<Entry<Content>> {
      match slot
      case Element(kind) => structure.Of(kind)
      case IndexSlot => indexes
      case ConsumerSlot => consumers
    }
  }

  datatype SeriesDiff = SeriesDiff(
    id: string,
    series: Option<Op<Body>>,
    structure: PerKind<seq<Op<Content>>>,
    indexes: seq<Op<Content>>,
    consumers: seq<Op<Content>>,
    groups: seq<Op<seq<string>>>)
  {
    function In(slot: Slot): seq<Op<Content>> {
      match slot
      case Element(kind) => structure.Of(kind)
      case IndexSlot => indexes
      case ConsumerSlot => consumers
    }

    predicate SeriesOp(kind: OpKind) {
      series.Some? && series.value.kind == kind
    }
  }

  datatype Options = Options(
    includeConsumers: bool, includeGroupPermissions: bool, deleteInBase: bool,
    revokeMissingGroupPermissions: bool, removeMissingConsumers: bool)

  /** A dimension cannot change its reference and an index cannot change its targets. */
  predicate RecreateInsteadOfUpdate(base: Content, target: Content) {
    match (base, target)
    case (Dimension(_, r), Dimension(_, r')) => r != r'
    case (Index(_, ts), Index(_, ts')) => ts != ts'
    case _ => false
  }

  function Children(series: Option<DataSeries>, slot: Slot): map<string, Content> {
    if series.Some? then Dict(series.value.In(slot)) else map[]
  }

  function Groups(series: Option<DataSeries>): map<string, seq<string>> {
    if series.Some? then Dict(series.value.groups) else map[]
  }

  // ---------- group permissions ----------

  /** An operation the permissions of one group call for; without revoking, a changed group
      keeps what it had next to what it gets. */
  ghost predicate GroupPlanned(base: map<string, seq<string>>, target: map<string, seq<string>>, revoke: bool,
                               op: Op<seq<string>>)
  {
    match op.kind
    case Delete => revoke && op.id in base && op.id !in target
    case Create => op.id in target && op.id !in base && op.payload == target[op.id]
    case Update =>
      && op.id in base && op.id in target && base[op.id] != target[op.id]
      && if revoke then op.payload == target[op.id]
         else Elements(op.payload) == Elements(target[op.id]) + Elements(base[op.id])
  }

  ghost predicate GroupDiffers(base: map<string, seq<string>>, target: map<string, seq<string>>, revoke: bool,
                               id: string)
  {
    if id in target then id !in base || base[id] != target[id] else revoke && id in base
  }

  ghost predicate CoversGroups(ops: seq<Op<seq<string>>>, base: map<string, seq<string>>,
                               target: map<string, seq<string>>, revoke: bool, handled: set<string>)
  {
    && WellShaped(ops)
    && (forall op | op in ops :: GroupPlanned(base, target, revoke, op) && op.id in handled)
    && (forall id | id in handled && GroupDiffers(base, target, revoke, id) :: exists op :: op in ops && op.id == id)
  }

  ghost predicate IsGroupDiff(ops: seq<Op<seq<string>>>, base: map<string, seq<string>>,
                              target: map<string, seq<string>>, revoke: bool)
  {
    CoversGroups(ops, base, target, revoke, base.Keys + target.Keys)
  }

  lemma ExtendGroups(ops: seq<Op<seq<string>>>, op: Op<seq<string>>, base: map<string, seq<string>>,
                     target: map<string, seq<string>>, revoke: bool, handled: set<string>)
    requires CoversGroups(ops, base, target, revoke, handled)
    requires GroupPlanned(base, target, revoke, op) && op.id !in handled
    ensures CoversGroups(ops + [op], base, target, revoke, handled + {op.id})
  {
  }

  /** Lists a set, in some order. */
  method ListSet(s: set<string>) returns (list: seq<string>)
    ensures Elements(list) == s
  {
    list := [];
    var todo := s;
    while todo != {}
      invariant todo <= s && Elements(list) == s - todo
    {
      var x :| x in todo;
      assert Elements(list + [x]) == Elements(list) + {x};
      list := list + [x];
      todo := todo - {x};
    }
  }

  method GroupPermissionsDiff(base: seq<Entry<seq<string>>>, target: seq<Entry<seq<string>>>, revoke: bool)
    returns (ops: seq<Op<seq<string>>>)
    ensures IsGroupDiff(ops, Dict(base), Dict(target), revoke)
  {
    var b := BuildDict(base);
    var t := BuildDict(target);
    ops := RevokeGroups(b, t, revoke);
    ghost var handled := b.Keys - t.Keys;
    var todo := t.Keys - b.Keys;
    while todo != {}
      invariant handled == ((b.Keys - t.Keys) + (t.Keys - b.Keys)) - todo && todo <= t.Keys - b.Keys
      invariant CoversGroups(ops, b, t, revoke, handled)
    {
      var id :| id in todo;
      ExtendGroups(ops, Op(Create, id, t[id]), b, t, revoke, handled);
      ops := ops + [Op(Create, id, t[id])];
      todo, handled := todo - {id}, handled + {id};
    }
    ops := UpdateGroups(ops, b, t, revoke, handled);
  }

  /** The first loop: groups that only base has. */
  method RevokeGroups(b: map<string, seq<string>>, t: map<string, seq<string>>, revoke: bool)
    returns (ops: seq<Op<seq<string>>>)
    ensures CoversGroups(ops, b, t, revoke, b.Keys - t.Keys)
  {
    ops := [];
    // the names whose operations are all listed
    ghost var handled := if revoke then {} else b.Keys - t.Keys;
    var todo := if revoke then b.Keys - t.Keys else {};
    while todo != {}
      invariant handled == (b.Keys - t.Keys) - todo && todo <= b.Keys - t.Keys && (todo != {} ==> revoke)
      invariant CoversGroups(ops, b, t, revoke, handled)
    {
      var id :| id in todo;
      ExtendGroups(ops, Op(Delete, id, b[id]), b, t, revoke, handled);
      ops := ops + [Op(Delete, id, b[id])];
      todo, handled := todo - {id}, handled + {id};
    }
    assert handled == b.Keys - t.Keys;
  }

  /** The last loop of the diff: groups with permissions on both sides. */
  method UpdateGroups(listed: seq<Op<seq<string>>>, b: map<string, seq<string>>, t: map<string, seq<string>>,
                      revoke: bool, ghost listedFor: set<string>) returns (ops: seq<Op<seq<string>>>)
    requires CoversGroups(listed, b, t, revoke, listedFor)
    requires listedFor == (b.Keys - t.Keys) + (t.Keys - b.Keys)
    ensures IsGroupDiff(ops, b, t, revoke)
  {
    ops := listed;
    var todo := set id | id in b && id in t && t[id] != b[id];
    ghost var handled := (b.Keys + t.Keys) - todo;
    while todo != {}
      invariant handled == (b.Keys + t.Keys) - todo && todo <= b.Keys * t.Keys
      invariant forall id | id in todo :: t[id] != b[id]
      invariant CoversGroups(ops, b, t, revoke, handled)
    {
      var id :| id in todo;
      var payload := t[id];
      if !revoke {
        payload := ListSet(set x | x in t[id] + b[id]);
      }
      ExtendGroups(ops, Op(Update, id, payload), b, t, revoke, handled);
      ops := ops + [Op(Update, id, payload)];
      todo, handled := todo - {id}, handled + {id};
    }
    assert handled == b.Keys + t.Keys;
  }

  // ---------- one DataSeries ----------

  /** The operation on the DataSeries itself. */
  function BareOp(id: string, base: Option<DataSeries>, target: Option<DataSeries>, opts: Options): Option<Op<Body>> {
    match (base, target)
    case (_, None) => if base.Some? && opts.deleteInBase then Some(Op(Delete, id, base.value.body)) else None
    case (None, Some(t)) => Some(Op(Create, id, t.body))
    case (Some(b), Some(t)) => if b.body != t.body then Some(Op(Update, id, t.body)) else None
  }

  /** Whether the diff leaves the children in a slot alone. */
  predicate Untouched(target: Option<DataSeries>, slot: Slot, opts: Options) {
    (target.None? && !opts.deleteInBase) || (slot.ConsumerSlot? && !opts.includeConsumers)
  }

  /** Whether children that only base has are deleted. */
  predicate DeletesMissing(base: Option<DataSeries>, target: Option<DataSeries>, slot: Slot, opts: Options) {
    slot.ConsumerSlot? ==> base.Some? && (target.Some? ==> opts.removeMissingConsumers)
  }

  ghost predicate IsChildDiff(ops: seq<Op<Content>>, base: Option<DataSeries>, target: Option<DataSeries>, slot: Slot,
                              opts: Options)
  {
    if Untouched(target, slot, opts) then ops == []
    else IsListDiff(ops, Children(base, slot), Children(target, slot), DeletesMissing(base, target, slot, opts),
                    RecreateInsteadOfUpdate)
  }

  ghost predicate IsSeriesDiff(diff: SeriesDiff, id: string, base: Option<DataSeries>, target: Option<DataSeries>,
                               opts: Options)
  {
    && diff.id == id
    && diff.series == BareOp(id, base, target, opts)
    && (forall slot :: IsChildDiff(diff.In(slot), base, target, slot, opts))
    && if (target.None? && !opts.deleteInBase) || !opts.includeGroupPermissions then diff.groups == []
       else IsGroupDiff(diff.groups, Groups(base), Groups(target),
                        base.Some? && (target.Some? ==> opts.revokeMissingGroupPermissions))
  }

  method DiffStructure(base: PerKind<seq<Entry<Content>>>, target: PerKind<seq<Entry<Content>>>)
    returns (diff: PerKind<seq<Op<Content>>>)
    ensures forall kind :: IsListDiff(diff.Of(kind), Dict(base.Of(kind)), Dict(target.Of(kind)), true,
                                      RecreateInsteadOfUpdate)
  {
    var f := ListDiffDataSeriesChild(base.floatFacts, target.floatFacts, true, RecreateInsteadOfUpdate);
    var s := ListDiffDataSeriesChild(base.stringFacts, target.stringFacts, true, RecreateInsteadOfUpdate);
    var t := ListDiffDataSeriesChild(base.textFacts, target.textFacts, true, RecreateInsteadOfUpdate);
    var ts := ListDiffDataSeriesChild(base.timestampFacts, target.timestampFacts, true, RecreateInsteadOfUpdate);
    var im := ListDiffDataSeriesChild(base.imageFacts, target.imageFacts, true, RecreateInsteadOfUpdate);
    var fi := ListDiffDataSeriesChild(base.fileFacts, target.fileFacts, true, RecreateInsteadOfUpdate);
    var j := ListDiffDataSeriesChild(base.jsonFacts, target.jsonFacts, true, RecreateInsteadOfUpdate);
    var b := ListDiffDataSeriesChild(base.booleanFacts, target.booleanFacts, true, RecreateInsteadOfUpdate);
    var d := ListDiffDataSeriesChild(base.dimensions, target.dimensions, true, RecreateInsteadOfUpdate);
    diff := PerKind(f, s, t, ts, im, fi, j, b, d);
    forall kind
      ensures IsListDiff(diff.Of(kind), Dict(base.Of(kind)), Dict(target.Of(kind)), true, RecreateInsteadOfUpdate)
    {
      match kind {
        case FloatFact => case StringFact => case TextFact => case TimestampFact => case ImageFact =>
        case FileFact => case JsonFact => case BooleanFact => case Dim =>
      }
    }
  }

  const NO_BODY := Body(FlatHistory, "")
  const NO_ELEMENTS: PerKind<seq<Entry<Content>>> := PerKind([], [], [], [], [], [], [], [], [])
  const NO_OPS: PerKind<seq<Op<Content>>> := PerKind([], [], [], [], [], [], [], [], [])

  method DiffDataSeries(id: string, base: Option<DataSeries>, target: Option<DataSeries>, opts: Options)
    returns (diff: SeriesDiff)
    requires base.Some? || target.Some?
    ensures IsSeriesDiff(diff, id, base, target, opts)
  {
    if target.None? && !opts.deleteInBase {
      return SeriesDiff(id, None, NO_OPS, [], [], []);
    }
    var b := if base.Some? then base.value else DataSeries(NO_BODY, NO_ELEMENTS, [], [], []);
    var t := if target.Some? then target.value else DataSeries(NO_BODY, NO_ELEMENTS, [], [], []);
    assert forall slot | base.None? :: Dict(b.In(slot)) == map[];
    assert forall slot | target.None? :: Dict(t.In(slot)) == map[];
    var structure := DiffStructure(b.structure, t.structure);
    var indexes := ListDiffDataSeriesChild(b.indexes, t.indexes, true, RecreateInsteadOfUpdate);
    var consumers, groups := [], [];
    if opts.includeConsumers {
      consumers := ListDiffDataSeriesChild(b.consumers, t.consumers,
                                           base.Some? && (target.Some? ==> opts.removeMissingConsumers),
                                           RecreateInsteadOfUpdate);
    }
    if opts.includeGroupPermissions {
      groups := GroupPermissionsDiff(b.groups, t.groups,
                                     base.Some? && (target.Some? ==> opts.revokeMissingGroupPermissions));
    }
    diff := SeriesDiff(id, BareOp(id, base, target, opts), structure, indexes, consumers, groups);
    AllSlots(diff, b, t, base, target, opts);
  }

  /** What the parts of a diff are in terms of the two sides, one of which may be missing. */
  lemma AllSlots(diff: SeriesDiff, b: DataSeries, t: DataSeries, base: Option<DataSeries>, target: Option<DataSeries>,
                 opts: Options)
    requires target.Some? || opts.deleteInBase
    requires forall slot :: Dict(b.In(slot)) == Children(base, slot) && Dict(t.In(slot)) == Children(target, slot)
    requires forall kind :: IsListDiff(diff.structure.Of(kind), Dict(b.structure.Of(kind)), Dict(t.structure.Of(kind)),
                                       true, RecreateInsteadOfUpdate)
    requires IsListDiff(diff.indexes, Dict(b.indexes), Dict(t.indexes), true, RecreateInsteadOfUpdate)
    requires if opts.includeConsumers then
               IsListDiff(diff.consumers, Dict(b.consumers), Dict(t.consumers),
                          DeletesMissing(base, target, ConsumerSlot, opts),
                          RecreateInsteadOfUpdate)
             else diff.consumers == []
    ensures forall slot :: IsChildDiff(diff.In(slot), base, target, slot, opts)
  {
    forall slot ensures IsChildDiff(diff.In(slot), base, target, slot, opts) {
      assert Dict(b.In(slot)) == Children(base, slot) && Dict(t.In(slot)) == Children(target, slot);
      match slot
      case Element(kind) =>
        assert b.In(slot) == b.structure.Of(kind) && t.In(slot) == t.structure.Of(kind);
      case IndexSlot =>
      case ConsumerSlot =>
    }
  }

  // ---------- what the operations are, case by case ----------

  /** A child is deleted although it stays in target, and created again, only if it is a dimension with another
      reference or an index with other targets; every other changed child, of whatever slot, is updated. A child only
      base has is deleted, except for a consumer of a DataSeries that stays when missing consumers are kept. */
  lemma ChildOps(diff: SeriesDiff, id: string, base: Option<DataSeries>, target: Option<DataSeries>, opts: Options,
                 slot: Slot, x: string)
    requires IsSeriesDiff(diff, id, base, target, opts)
    ensures var b := if base.Some? then At(Dict(base.value.In(slot)), x) else None;
            var t := if target.Some? then At(Dict(target.value.In(slot)), x) else None;
            var skipped := (target.None? && !opts.deleteInBase) || (slot == ConsumerSlot && !opts.includeConsumers);
            var kept := slot == ConsumerSlot && target.Some? && !opts.removeMissingConsumers;
            var rebuilt := b.Some? && t.Some? && match (b.value, t.value)
                                                 case (Dimension(_, r), Dimension(_, r')) => r != r'
                                                 case (Index(_, ts), Index(_, ts')) => ts != ts'
                                                 case _ => false;
            && ((exists op :: op in diff.In(slot) && op.id == x && op.kind == Delete) <==>
                !skipped && b.Some? && if t.None? then !kept else rebuilt)
            && (forall p :: Op(Create, x, p) in diff.In(slot) <==>
                  !skipped && t == Some(p) && (b.None? || rebuilt))
            && (forall p :: Op(Update, x, p) in diff.In(slot) <==>
                  !skipped && t == Some(p) && b.Some? && b != t && !rebuilt)
  {
    assert IsChildDiff(diff.In(slot), base, target, slot, opts);
    if !Untouched(target, slot, opts) {
      PlannedOps(diff.In(slot), Children(base, slot), Children(target, slot),
                 DeletesMissing(base, target, slot, opts), RecreateInsteadOfUpdate, x);
    }
    assert (exists op :: op in diff.In(slot) && op.id == x && op.kind == Delete) <==> Drops(diff.In(slot), x);
  }

  /** The operation on the DataSeries itself. */
  lemma SeriesOps(diff: SeriesDiff, id: string, base: Option<DataSeries>, target: Option<DataSeries>, opts: Options)
    requires IsSeriesDiff(diff, id, base, target, opts)
    ensures diff.SeriesOp(Delete) <==> base.Some? && target.None? && opts.deleteInBase
    ensures diff.SeriesOp(Create) <==> base.None? && target.Some?
    ensures diff.SeriesOp(Update) <==> base.Some? && target.Some? && base.value.body != target.value.body
    ensures diff.series.Some? ==> diff.series.value.id == id
    ensures diff.series.Some? && target.Some? ==> diff.series.value.payload == target.value.body
  {
  }

  /** The operation on the permissions of one group. */
  lemma GroupOps(diff: SeriesDiff, id: string, base: Option<DataSeries>, target: Option<DataSeries>, opts: Options,
                 g: string)
    requires IsSeriesDiff(diff, id, base, target, opts)
    ensures var b := if base.Some? then At(Dict(base.value.groups), g) else None;
            var t := if target.Some? then At(Dict(target.value.groups), g) else None;
            var skipped := (target.None? && !opts.deleteInBase) || !opts.includeGroupPermissions;
            var revoke := target.None? || opts.revokeMissingGroupPermissions;
            && ((exists op :: op in diff.groups && op.id == g && op.kind == Delete) <==>
                !skipped && b.Some? && t.None? && revoke)
            && ((exists op :: op in diff.groups && op.id == g && op.kind == Create) <==> !skipped && b.None? && t.Some?)
            && ((exists op :: op in diff.groups && op.id == g && op.kind == Update) <==>
                !skipped && b.Some? && t.Some? && b != t)
            && (forall op | op in diff.groups && op.id == g && op.kind != Delete ::
                  forall x :: x in op.payload <==>
                    x in t.value || (op.kind == Update && !revoke && x in b.value))
  {
    forall op | op in diff.groups && op.id == g && op.kind != Delete ensures g in Groups(target) {
    }
    forall op, x | op in diff.groups && op.id == g ensures x in op.payload <==> x in Elements(op.payload) {
    }
  }

  // ---------- all DataSeries ----------

  ghost predicate CoversSeries(diffs: seq<SeriesDiff>, base: map<string, DataSeries>, target: map<string, DataSeries>,
                               opts: Options, handled: set<string>)
  {
    && (forall i, j | 0 <= i < j < |diffs| :: diffs[i].id != diffs[j].id)
    && (forall diff | diff in diffs :: IsSeriesDiff(diff, diff.id, At(base, diff.id), At(target, diff.id), opts))
    && (forall id :: id in handled <==> exists diff :: diff in diffs && diff.id == id)
  }

  /** One diff for every DataSeries either side knows. */
  ghost predicate IsFullDiff(diffs: seq<SeriesDiff>, base: map<string, DataSeries>, target: map<string, DataSeries>,
                             opts: Options)
  {
    CoversSeries(diffs, base, target, opts, base.Keys + target.Keys)
  }

  lemma ExtendSeries(diffs: seq<SeriesDiff>, diff: SeriesDiff, base: map<string, DataSeries>,
                     target: map<string, DataSeries>, opts: Options, handled: set<string>)
    requires CoversSeries(diffs, base, target, opts, handled)
    requires IsSeriesDiff(diff, diff.id, At(base, diff.id), At(target, diff.id), opts) && diff.id !in handled
    ensures CoversSeries(diffs + [diff], base, target, opts, handled + {diff.id})
  {
  }

  method DiffAllDataSeries(base: seq<Entry<DataSeries>>, target: seq<Entry<DataSeries>>, opts: Options)
    returns (diffs: seq<SeriesDiff>)
    ensures IsFullDiff(diffs, Dict(base), Dict(target), opts)
  {
    var b := BuildDict(base);
    var t := BuildDict(target);
    diffs := [];
    var todo := b.Keys + t.Keys;
    ghost var handled: set<string> := {};
    while todo != {}
      invariant todo <= b.Keys + t.Keys && handled == (b.Keys + t.Keys) - todo
      invariant CoversSeries(diffs, b, t, opts, handled)
    {
      var id :| id in todo;
      var diff := DiffDataSeries(id, At(b, id), At(t, id), opts);
      ExtendSeries(diffs, diff, b, t, opts, handled);
      diffs := diffs + [diff];
      todo, handled := todo - {id}, handled + {id};
    }
    assert handled == b.Keys + t.Keys;
  }
}
