/** Diffing two collections of definitions and pushing the result: what the server ends with. */
module Convergence {
  import opened Basics
  import opened ListDiff
  import opened Definitions
  import opened Api
  import opened PushSpec
  import opened Pushing

  function Child(defs: map<string, DataSeries>, p: Path): Option<Content> {
    At(Children(At(defs, p.series), p.slot), p.id)
  }

  function Grant(defs: map<string, DataSeries>, k: (string, string)): Option<set<string>> {
    if k.1 in Groups(At(defs, k.0)) then Some(Elements(Groups(At(defs, k.0))[k.1])) else None
  }

  /** The server holds these definitions and nothing else. */
  ghost predicate Holds(defs: map<string, DataSeries>, bodies: map<string, Body>, items: map<Path, Content>,
                        grants: map<(string, string), set<string>>)
  {
    && (forall id :: At(bodies, id) == if id in defs then Some(defs[id].body) else None)
    && (forall p :: At(items, p) == Child(defs, p))
    && (forall k :: At(grants, k) == Grant(defs, k))
  }

  /** Both sides of a synchronisation. */
  datatype Sync = Sync(base: map<string, DataSeries>, target: map<string, DataSeries>, opts: Options)
  {
    predicate Survives(id: string) {
      id in target || (id in base && !opts.deleteInBase)
    }

    /** Children are where they belong, references and index targets exist, ids are unique across
        the nine kinds of structure elements, and the server knows the groups. */
    ghost predicate TargetFits(groups: set<string>) {
      && (forall p | Child(target, p).Some? ::
            var c := Child(target, p).value;
            && Typed(p.slot, c)
            && (c.Dimension? ==> Survives(c.reference))
            && (c.Index? ==> c.targets != [] && NoDuplicates(c.targets) &&
                             forall t | t in c.targets :: Child(target, TargetPath(p.series, t)).Some?))
      && (forall p, q | Child(target, p).Some? && Child(target, q).Some? && p.slot.Element? && q.slot.Element? &&
                        p.series == q.series && p.id == q.id :: p == q)
      && (forall id, g | id in target && g in Groups(At(target, id)) && opts.includeGroupPermissions :: g in groups)
    }

    /** An index that keeps its targets points at a dimension whose reference changes. */
    ghost predicate KeptIndexOnMovedDimension() {
      exists q, p :: KeptIndexOn(q, p) && Moved(p)
    }

    predicate KeptIndexOn(q: Path, p: Path) {
      && Child(base, q).Some? && Child(target, q).Some?
      && Child(base, q).value.Index? && Child(target, q).value.Index?
      && Child(base, q).value.targets == Child(target, q).value.targets
      && exists t | t in Child(base, q).value.targets :: TargetPath(q.series, t) == p
    }

    predicate Moved(p: Path) {
      && Child(base, p).Some? && Child(target, p).Some?
      && Child(base, p).value.Dimension? && Child(target, p).value.Dimension?
      && Child(base, p).value.reference != Child(target, p).value.reference
    }

    /** What the server should end with. */
    function BodyAfter(id: string): Option<Body> {
      if id in target then Some(target[id].body)
      else if id in base && !opts.deleteInBase then Some(base[id].body) else None
    }

    function ChildAfter(p: Path): Option<Content> {
      if p.series !in target then if opts.deleteInBase then None else Child(base, p)
      else if p.slot.ConsumerSlot? && !opts.includeConsumers then Child(base, p)
      else if p.slot.ConsumerSlot? && !opts.removeMissingConsumers && Child(target, p).None? then Child(base, p)
      else Child(target, p)
    }

    function GrantAfter(k: (string, string)): Option<set<string>> {
      if k.0 !in target then if opts.deleteInBase then None else Grant(base, k)
      else if !opts.includeGroupPermissions || Grant(target, k).None? then Grant(base, k)
      else if !opts.revokeMissingGroupPermissions && Grant(base, k).Some? then
        Some(Grant(target, k).value + Grant(base, k).value)
      else Grant(target, k)
    }
  }

  // ---------- what a diff drops and writes ----------

  lemma DropsAndWrites(diff: SeriesDiff, p: Path)
    requires ShapedDiff(diff) && p.series == diff.id
    ensures p in Dropped(diff) <==> Drops(diff.In(p.slot), p.id)
    ensures p in Paths(diff.id, AllWritten(diff)) <==> Writes(diff.In(p.slot), p.id)
  {
    forall op | op in diff.In(p.slot) && op.id == p.id
      ensures op.kind == Delete ==> p in Dropped(diff)
      ensures op.kind != Delete ==> p in Paths(diff.id, AllWritten(diff))
    {
      OpsOfSlot(diff, Tagged(p.slot, op));
      assert PathOf(diff.id, Tagged(p.slot, op)) == p;
    }
    if p in Dropped(diff) {
      var e := DroppedBecause(diff, p);
      OpsOfSlot(diff, e);
    }
    if p in Paths(diff.id, AllWritten(diff)) {
      var e :| e in AllWritten(diff) && PathOf(diff.id, e) == p;
      OpsOfSlot(diff, e);
    }
  }

  /** An operation of a diff is dropped or written according to its kind. */
  lemma OpsOfSlot(diff: SeriesDiff, e: Tagged)
    requires ShapedDiff(diff)
    ensures e in ElementOps(diff) || e in ConsumerOps(diff) || e in IndexOps(diff) <==> e.op in diff.In(e.slot)
    ensures e in AllWritten(diff) <==> e.op in diff.In(e.slot) && e.op.kind != Delete
    ensures e.op in diff.In(e.slot) && e.op.kind == Delete ==> PathOf(diff.id, e) in Dropped(diff)
  {
    DiffSendable(diff);
  }

  lemma DroppedBecause(diff: SeriesDiff, p: Path) returns (e: Tagged)
    requires ShapedDiff(diff) && p in Dropped(diff)
    ensures e.op in diff.In(e.slot) && e.op.kind == Delete && PathOf(diff.id, e) == p
  {
    DiffSendable(diff);
    if p in Paths(diff.id, Picked(IndexOps(diff), Delete)) {
      e :| e in Picked(IndexOps(diff), Delete) && PathOf(diff.id, e) == p;
    } else if p in Paths(diff.id, Picked(ElementOps(diff), Delete)) {
      e :| e in Picked(ElementOps(diff), Delete) && PathOf(diff.id, e) == p;
    } else {
      e :| e in Picked(ConsumerOps(diff), Delete) && PathOf(diff.id, e) == p;
    }
  }

  lemma FullDiffWellFormed(s: Sync, diffs: seq<SeriesDiff>)
    requires IsFullDiff(diffs, s.base, s.target, s.opts)
    ensures WellFormed(diffs)
  {
    forall d | d in diffs
      ensures ShapedDiff(d) && WellShaped(d.groups) && (d.series.Some? ==> d.series.value.id == d.id)
    {
      SeriesDiffShaped(s, d);
    }
  }

  lemma SeriesDiffShaped(s: Sync, d: SeriesDiff)
    requires IsSeriesDiff(d, d.id, At(s.base, d.id), At(s.target, d.id), s.opts)
    ensures ShapedDiff(d) && WellShaped(d.groups) && (d.series.Some? ==> d.series.value.id == d.id)
  {
    forall slot ensures WellShaped(d.In(slot)) {
      assert IsChildDiff(d.In(slot), At(s.base, d.id), At(s.target, d.id), slot, s.opts);
    }
  }

  /** The diff of this DataSeries leaves the slot alone. */
  predicate Skips(s: Sync, p: Path) {
    Untouched(At(s.target, p.series), p.slot, s.opts)
  }

  predicate Recreates(s: Sync, p: Path) {
    && Child(s.base, p).Some? && Child(s.target, p).Some? && Child(s.base, p) != Child(s.target, p)
    && RecreateInsteadOfUpdate(Child(s.base, p).value, Child(s.target, p).value)
  }

  predicate DropsChild(s: Sync, p: Path) {
    && !Skips(s, p) && Child(s.base, p).Some?
    && if Child(s.target, p).Some? then Recreates(s, p)
       else DeletesMissing(At(s.base, p.series), At(s.target, p.series), p.slot, s.opts)
  }

  predicate WritesChild(s: Sync, p: Path) {
    !Skips(s, p) && Child(s.target, p).Some? && Child(s.base, p) != Child(s.target, p)
  }

  /** The operations a list diff has for an id. */
  lemma ListOpsAt(ops: seq<Op<Content>>, base: map<string, Content>, target: map<string, Content>, deleteMissing: bool,
                  id: string)
    requires IsListDiff(ops, base, target, deleteMissing, RecreateInsteadOfUpdate)
    ensures var changed := id in target && At(base, id) != At(target, id);
            var recreated := changed && id in base && RecreateInsteadOfUpdate(base[id], target[id]);
            && (Drops(ops, id) <==> id in base && if id in target then recreated else deleteMissing)
            && (Writes(ops, id) <==> changed)
            && (forall op | op in ops && op.id == id && op.kind != Delete ::
                  changed && op.payload == target[id] && (op.kind == Create <==> id !in base || recreated))
  {
    PlannedOps(ops, base, target, deleteMissing, RecreateInsteadOfUpdate, id);
    if id in target && At(base, id) != At(target, id) {
      assert Op(Create, id, target[id]) in ops || Op(Update, id, target[id]) in ops;
    }
    assert forall op | op in ops && op.id == id :: op == Op(op.kind, id, op.payload);
  }

  lemma OpsAt(s: Sync, diff: SeriesDiff, p: Path)
    requires IsSeriesDiff(diff, diff.id, At(s.base, diff.id), At(s.target, diff.id), s.opts) && p.series == diff.id
    ensures Drops(diff.In(p.slot), p.id) <==> DropsChild(s, p)
    ensures Writes(diff.In(p.slot), p.id) <==> WritesChild(s, p)
    ensures forall op | op in diff.In(p.slot) && op.id == p.id && op.kind != Delete ::
              WritesChild(s, p) && op.payload == Child(s.target, p).value &&
              (op.kind == Create <==> Child(s.base, p).None? || Recreates(s, p))
  {
    var base, target := At(s.base, p.series), At(s.target, p.series);
    assert IsChildDiff(diff.In(p.slot), base, target, p.slot, s.opts);
    if !Skips(s, p) {
      ListOpsAt(diff.In(p.slot), Children(base, p.slot), Children(target, p.slot),
                DeletesMissing(base, target, p.slot, s.opts), p.id);
    }
  }

  lemma DiffOf(s: Sync, diffs: seq<SeriesDiff>, id: string) returns (d: SeriesDiff)
    requires IsFullDiff(diffs, s.base, s.target, s.opts) && (id in s.base || id in s.target)
    ensures d in diffs && d.id == id && IsSeriesDiff(d, id, At(s.base, id), At(s.target, id), s.opts)
  {
    assert id in s.base.Keys + s.target.Keys;
    d :| d in diffs && d.id == id;
  }

  lemma DroppedHere(s: Sync, d: SeriesDiff, p: Path)
    requires IsSeriesDiff(d, d.id, At(s.base, d.id), At(s.target, d.id), s.opts) && p.series == d.id
    ensures p in Dropped(d) <==> DropsChild(s, p)
  {
    forall slot ensures WellShaped(d.In(slot)) {
      assert IsChildDiff(d.In(slot), At(s.base, d.id), At(s.target, d.id), slot, s.opts);
    }
    OpsAt(s, d, p);
    DropsAndWrites(d, p);
  }

  /** The first phase removes a path exactly when the diff drops the child. */
  lemma DroppedPaths(s: Sync, diffs: seq<SeriesDiff>, p: Path)
    requires IsFullDiff(diffs, s.base, s.target, s.opts)
    ensures p in DroppedBy(diffs) <==> DropsChild(s, p)
    ensures forall d | d in diffs && d.id == p.series :: p in Dropped(d) <==> DropsChild(s, p)
  {
    forall d | d in diffs && d.id == p.series
      ensures p in Dropped(d) <==> DropsChild(s, p)
      ensures DropsChild(s, p) ==> !d.SeriesOp(Create)
    {
      DroppedHere(s, d, p);
    }
    forall d | d in diffs ensures forall q | q in Dropped(d) :: q.series == d.id {
      DroppedOwn(d);
    }
    if DropsChild(s, p) {
      var d := DiffOf(s, diffs, p.series);
      assert p in Dropped(d);
    }
  }

  // ---------- what the push leaves ----------

  lemma BareOpOf(s: Sync, diffs: seq<SeriesDiff>, op: Op<Body>)
    requires IsFullDiff(diffs, s.base, s.target, s.opts)
    ensures op in BareOps(diffs) <==> BareOp(op.id, At(s.base, op.id), At(s.target, op.id), s.opts) == Some(op)
  {
    FullDiffWellFormed(s, diffs);
    BareOpsShaped(diffs);
    if BareOp(op.id, At(s.base, op.id), At(s.target, op.id), s.opts) == Some(op) {
      var d := DiffOf(s, diffs, op.id);
    }
  }

  lemma DeadIds(s: Sync, diffs: seq<SeriesDiff>, id: string)
    requires IsFullDiff(diffs, s.base, s.target, s.opts)
    ensures id in Dead(diffs) <==> id in s.base && id !in s.target && s.opts.deleteInBase
    ensures id in Live(diffs) <==> id in s.target || (id in s.base && !s.opts.deleteInBase)
  {
    if id in s.base || id in s.target {
      var d := DiffOf(s, diffs, id);
      OnlyDiff(diffs, d) by {
        FullDiffDistinct(s, diffs);
      }
      assert d.SeriesOp(Delete) <==> id in s.base && id !in s.target && s.opts.deleteInBase;
    } else {
      assert forall x | x in diffs :: x.id in s.base.Keys + s.target.Keys;
    }
  }

  lemma FullDiffDistinct(s: Sync, diffs: seq<SeriesDiff>)
    requires IsFullDiff(diffs, s.base, s.target, s.opts)
    ensures forall x, y | x in diffs && y in diffs && x.id == y.id :: x == y
  {
  }

  /** Whether a DataSeries goes is decided by its only diff. */
  lemma OnlyDiff(diffs: seq<SeriesDiff>, d: SeriesDiff)
    requires d in diffs && forall x, y | x in diffs && y in diffs && x.id == y.id :: x == y
    ensures d.id in Dead(diffs) <==> d.SeriesOp(Delete)
    ensures d.id in Live(diffs) <==> !d.SeriesOp(Delete)
  {
  }

  lemma BodiesConverge(s: Sync, diffs: seq<SeriesDiff>, bodies: map<string, Body>, id: string)
    requires IsFullDiff(diffs, s.base, s.target, s.opts)
    requires At(bodies, id) == if id in s.base then Some(s.base[id].body) else None
    ensures At(PerformAll(bodies, BareOps(diffs)), id) == s.BodyAfter(id)
  {
    var mine := BareOp(id, At(s.base, id), At(s.target, id), s.opts);
    assert mine.Some? ==> mine.value.id == id;
    assert At(PerformAll(bodies, BareOps(diffs)), id) == Alone(mine, At(bodies, id)) by {
      assert WellShaped(BareOps(diffs)) by {
        FullDiffWellFormed(s, diffs);
        BareOpsShaped(diffs);
      }
      BareOpsAt(s, diffs, id);
      OnlyOp(bodies, BareOps(diffs), id, mine);
    }
  }

  /** What the one operation that names an id makes of it. */
  function Alone(mine: Option<Op<Body>>, body: Option<Body>): Option<Body> {
    if mine.None? then body else if mine.value.kind == Delete then None else Some(mine.value.payload)
  }

  /** What a list does to an id that at most one of its operations names. */
  lemma OnlyOp(bodies: map<string, Body>, ops: seq<Op<Body>>, id: string, mine: Option<Op<Body>>)
    requires WellShaped(ops) && (mine.Some? ==> mine.value in ops && mine.value.id == id)
    requires forall op | op in ops && op.id == id :: mine == Some(op)
    ensures At(PerformAll(bodies, ops), id) == Alone(mine, At(bodies, id))
  {
    PerformAllSettles(bodies, ops, id);
  }

  lemma BareOpsAt(s: Sync, diffs: seq<SeriesDiff>, id: string)
    requires IsFullDiff(diffs, s.base, s.target, s.opts)
    ensures var mine := BareOp(id, At(s.base, id), At(s.target, id), s.opts);
            && (mine.Some? ==> mine.value in BareOps(diffs))
            && (forall op | op in BareOps(diffs) && op.id == id :: mine == Some(op))
  {
    var mine := BareOp(id, At(s.base, id), At(s.target, id), s.opts);
    if mine.Some? {
      BareOpOf(s, diffs, mine.value);
    }
    forall op | op in BareOps(diffs) && op.id == id ensures mine == Some(op) {
      BareOpOf(s, diffs, op);
    }
  }

  lemma KeptAt(s: Sync, diffs: seq<SeriesDiff>, items: map<Path, Content>, p: Path)
    requires IsFullDiff(diffs, s.base, s.target, s.opts)
    requires At(items, p) == Child(s.base, p)
    ensures At(items - DroppedBy(diffs), p) == if DropsChild(s, p) then None else Child(s.base, p)
    ensures At(Kept(items, diffs), p) ==
            if DropsChild(s, p) || (p.series !in s.target && s.opts.deleteInBase) then None else Child(s.base, p)
  {
    DroppedPaths(s, diffs, p);
    DeadIds(s, diffs, p.series);
  }

  lemma WrittenHere(s: Sync, d: SeriesDiff, kept: map<Path, Content>, items': map<Path, Content>, p: Path)
    requires IsSeriesDiff(d, d.id, At(s.base, d.id), At(s.target, d.id), s.opts) && ShapedDiff(d)
    requires WroteHere(kept, items', d) && p.series == d.id
    ensures At(items', p) == if WritesChild(s, p) then Child(s.target, p) else At(kept, p)
  {
    OpsAt(s, d, p);
    DropsAndWrites(d, p);
    if p in Paths(d.id, AllWritten(d)) {
      var e :| e in AllWritten(d) && PathOf(d.id, e) == p;
      DiffSendable(d);
      assert e.op in d.In(p.slot);
    }
  }

  lemma ChildAfterMeaning(s: Sync, p: Path)
    ensures s.ChildAfter(p) == if WritesChild(s, p) then Child(s.target, p)
                               else if DropsChild(s, p) || (p.series !in s.target && s.opts.deleteInBase) then None
                               else Child(s.base, p)
  {
  }

  lemma ChildConverges(s: Sync, diffs: seq<SeriesDiff>, items: map<Path, Content>, items': map<Path, Content>, p: Path)
    requires IsFullDiff(diffs, s.base, s.target, s.opts)
    requires At(items, p) == Child(s.base, p)
    requires WroteAll(Kept(items, diffs), items', diffs)
    ensures At(items', p) == s.ChildAfter(p)
  {
    FullDiffWellFormed(s, diffs);
    KeptAt(s, diffs, items, p);
    DeadIds(s, diffs, p.series);
    ChildAfterMeaning(s, p);
    if p.series in Live(diffs) {
      var d :| d in diffs && !d.SeriesOp(Delete) && d.id == p.series;
      WrittenHere(s, d, Kept(items, diffs), items', p);
    }
  }

  /** The permissions of a group are put exactly when the definitions ask for a change. */
  predicate WritesGrant(s: Sync, k: (string, string)) {
    var b, t := Groups(At(s.base, k.0)), Groups(At(s.target, k.0));
    s.opts.includeGroupPermissions && k.1 in t && (k.1 !in b || b[k.1] != t[k.1])
  }

  lemma GroupOpsAt(s: Sync, d: SeriesDiff, g: string)
    requires IsSeriesDiff(d, d.id, At(s.base, d.id), At(s.target, d.id), s.opts)
    ensures Writes(d.groups, g) <==> WritesGrant(s, (d.id, g))
    ensures forall op | op in d.groups && op.id == g && op.kind != Delete ::
            s.GrantAfter((d.id, g)) == Some(Elements(op.payload))
  {
  }

  lemma GrantAfterMeaning(s: Sync, k: (string, string))
    requires !WritesGrant(s, k)
    ensures s.GrantAfter(k) == if k.0 !in s.target && s.opts.deleteInBase then None else Grant(s.base, k)
  {
    if Grant(s.base, k).Some? {
      assert Grant(s.base, k).value + Grant(s.base, k).value == Grant(s.base, k).value;
    }
  }

  lemma GrantConverges(s: Sync, diffs: seq<SeriesDiff>, grants: map<(string, string), set<string>>,
                       grants': map<(string, string), set<string>>, k: (string, string))
    requires IsFullDiff(diffs, s.base, s.target, s.opts)
    requires At(grants, k) == Grant(s.base, k)
    requires GrantedAll(GrantsOutside(grants, Dead(diffs)), grants', diffs)
    ensures At(grants', k) == s.GrantAfter(k)
  {
    forall d | d in diffs && d.id == k.0
      ensures Writes(d.groups, k.1) <==> WritesGrant(s, k)
      ensures WritesGrant(s, k) ==> At(grants', k) == s.GrantAfter(k)
    {
      GroupOpsAt(s, d, k.1);
      if Writes(d.groups, k.1) {
        var op :| op in d.groups && op.id == k.1 && op.kind != Delete;
        assert At(grants', (d.id, op.id)) == Some(Elements(op.payload));
      }
    }
    if WritesGrant(s, k) {
      var d := DiffOf(s, diffs, k.0);
    } else {
      DeadIds(s, diffs, k.0);
      GrantAfterMeaning(s, k);
      assert At(grants', k) == At(GrantsOutside(grants, Dead(diffs)), k);
    }
  }

  // ---------- what the server refuses ----------

  predicate ChangesBody(s: Sync, id: string) {
    BareOp(id, At(s.base, id), At(s.target, id), s.opts).Some?
  }

  /** After the operations on the DataSeries themselves, something of this one is still written. */
  ghost predicate WritesTo(s: Sync, id: string) {
    (exists p: Path :: p.series == id && WritesChild(s, p)) || (exists g :: WritesGrant(s, (id, g)))
  }

  ghost predicate Touches(s: Sync, id: string) {
    ChangesBody(s, id) || (exists p: Path :: p.series == id && DropsChild(s, p)) || WritesTo(s, id)
  }

  /** The server lets nothing about it be changed. */
  predicate Closed(s: Sync, locked: set<string>, id: string) {
    id in s.base && (Deprecated(s.base[id].body.backend) || id in locked)
  }

  /** It is to be put on a deprecated backend. */
  predicate BadBackend(s: Sync, id: string) {
    id in s.target && ChangesBody(s, id) && Deprecated(s.target[id].body.backend)
  }

  /** It moves to another backend, and is still locked for that when more is to be written to it. */
  ghost predicate StillMoving(s: Sync, slow: set<string>, id: string) {
    && id in s.base && id in s.target && s.base[id].body.backend != s.target[id].body.backend
    && id in slow && WritesTo(s, id)
  }

  ghost predicate Blocked(s: Sync, locked: set<string>, slow: set<string>, id: string) {
    (Closed(s, locked, id) && Touches(s, id)) || BadBackend(s, id) || StillMoving(s, slow, id)
  }

  /** The server refuses one of the requests of the push. */
  ghost predicate Refused(s: Sync, locked: set<string>, slow: set<string>) {
    s.KeptIndexOnMovedDimension() || exists id :: Blocked(s, locked, slow, id)
  }

  lemma OpenBefore(s: Sync, bodies: map<string, Body>, locked: set<string>, id: string)
    requires At(bodies, id) == if id in s.base then Some(s.base[id].body) else None
    ensures id in RegistryOf(bodies, locked).open <==> id in s.base && !Closed(s, locked, id)
  {
  }

  lemma LockedLater(s: Sync, diffs: seq<SeriesDiff>, bodies: map<string, Body>, locked: set<string>, slow: set<string>,
                    id: string)
    requires IsFullDiff(diffs, s.base, s.target, s.opts) && id in s.target
    requires At(bodies, id) == if id in s.base then Some(s.base[id].body) else None
    ensures id in LockedAfter(bodies, locked, slow, diffs) <==>
            id in locked || (id in s.base && s.base[id].body.backend != s.target[id].body.backend && id in slow)
  {
    DeadIds(s, diffs, id);
    var updates := OfKind(BareOps(diffs), Update);
    forall op | op in updates && op.id == id ensures id in s.base && op.payload == s.target[id].body {
      BareOpOf(s, diffs, op);
    }
    if id in s.base && s.base[id].body.backend != s.target[id].body.backend {
      BareOpOf(s, diffs, Op(Update, id, s.target[id].body));
      assert Op(Update, id, s.target[id].body) in updates;
    }
  }

  lemma OpenLater(s: Sync, diffs: seq<SeriesDiff>, bodies: map<string, Body>, locked: set<string>, slow: set<string>,
                  id: string)
    requires IsFullDiff(diffs, s.base, s.target, s.opts) && id in s.target && locked <= bodies.Keys
    requires At(bodies, id) == if id in s.base then Some(s.base[id].body) else None
    ensures id in RegistryAfter(bodies, locked, slow, diffs).open <==>
            && !Deprecated(s.target[id].body.backend) && id !in locked
            && !(id in s.base && s.base[id].body.backend != s.target[id].body.backend && id in slow)
    ensures !Blocked(s, locked, slow, id) && WritesTo(s, id) ==> id in RegistryAfter(bodies, locked, slow, diffs).open
  {
    LockedLater(s, diffs, bodies, locked, slow, id);
    BodiesConverge(s, diffs, bodies, id);
  }

  /** A DataSeries that is blocked makes the server refuse a request. */
  lemma BlockedRefused(s: Sync, diffs: seq<SeriesDiff>, bodies: map<string, Body>, items: map<Path, Content>,
                       locked: set<string>, slow: set<string>, groups: set<string>, id: string)
    requires IsFullDiff(diffs, s.base, s.target, s.opts) && Starts(s, bodies, items, locked)
    requires Blocked(s, locked, slow, id)
    ensures !PushFits(bodies, locked, slow, items, groups, diffs)
  {
    assert At(bodies, id) == if id in s.base then Some(s.base[id].body) else None;
    if ChangesBody(s, id) && (Closed(s, locked, id) || BadBackend(s, id)) {
      BodyRefused(s, diffs, bodies, locked, items - DroppedBy(diffs), id);
    } else if Closed(s, locked, id) && exists p: Path :: p.series == id && DropsChild(s, p) {
      var p: Path :| p.series == id && DropsChild(s, p);
      DropRefused(s, diffs, bodies, locked, items, id, p);
    } else {
      OpenLater(s, diffs, bodies, locked, slow, id);
      WriteRefused(s, diffs, RegistryAfter(bodies, locked, slow, diffs), Kept(items, diffs), groups, id);
    }
  }

  lemma BodyRefused(s: Sync, diffs: seq<SeriesDiff>, bodies: map<string, Body>, locked: set<string>,
                    remaining: map<Path, Content>, id: string)
    requires IsFullDiff(diffs, s.base, s.target, s.opts)
    requires At(bodies, id) == if id in s.base then Some(s.base[id].body) else None
    requires ChangesBody(s, id) && (Closed(s, locked, id) || BadBackend(s, id))
    ensures !BareFits(bodies, locked, remaining, diffs)
  {
    var op := BareOp(id, At(s.base, id), At(s.target, id), s.opts).value;
    BareOpOf(s, diffs, op);
    OpenBefore(s, bodies, locked, id);
    assert op in BareOps(diffs);
  }

  lemma DropRefused(s: Sync, diffs: seq<SeriesDiff>, bodies: map<string, Body>, locked: set<string>,
                    items: map<Path, Content>, id: string, p: Path)
    requires IsFullDiff(diffs, s.base, s.target, s.opts) && Closed(s, locked, id) && p.series == id && DropsChild(s, p)
    requires At(bodies, id) == if id in s.base then Some(s.base[id].body) else None
    ensures !AllDropsFit(RegistryOf(bodies, locked), items, diffs)
  {
    OpenBefore(s, bodies, locked, id);
    var d := DiffOf(s, diffs, id);
    DroppedHere(s, d, p);
    assert !DropsFit(RegistryOf(bodies, locked), items, d);
  }

  /** What is to be written to a DataSeries that may not be modified does not fit. */
  lemma WriteRefused(s: Sync, diffs: seq<SeriesDiff>, reg: Registry, kept: map<Path, Content>, groups: set<string>,
                     id: string)
    requires IsFullDiff(diffs, s.base, s.target, s.opts) && WritesTo(s, id) && id !in reg.open
    ensures !AllWritesFit(reg, kept, diffs) || !AllGroupsFit(reg, groups, diffs)
  {
    assert id in s.target;
    var d := DiffOf(s, diffs, id);
    if p: Path :| p.series == id && WritesChild(s, p) {
      FullDiffWellFormed(s, diffs);
      WritesHere(s, d, p);
      assert !WritesFit(reg, kept, d);
    } else {
      var g :| WritesGrant(s, (id, g));
      GroupOpsAt(s, d, g);
      assert !GroupsFit(reg, groups, d);
    }
  }

  lemma WritesHere(s: Sync, d: SeriesDiff, p: Path)
    requires IsSeriesDiff(d, d.id, At(s.base, d.id), At(s.target, d.id), s.opts) && ShapedDiff(d) && p.series == d.id
    requires WritesChild(s, p)
    ensures AllWritten(d) != []
  {
    OpsAt(s, d, p);
    DropsAndWrites(d, p);
  }

  lemma SomethingWritten(s: Sync, d: SeriesDiff)
    requires IsSeriesDiff(d, d.id, At(s.base, d.id), At(s.target, d.id), s.opts) && ShapedDiff(d) && AllWritten(d) != []
    ensures WritesTo(s, d.id)
  {
    DiffSendable(d);
    var e := AllWritten(d)[0];
    assert e in AllWritten(d) && e.op in d.In(e.slot);
    OpsAt(s, d, PathOf(d.id, e));
    assert WritesChild(s, PathOf(d.id, e));
  }

  // ---------- every request is legal ----------

  /** The server is consistent and holds base. */
  ghost predicate Starts(s: Sync, bodies: map<string, Body>, items: map<Path, Content>, locked: set<string>) {
    && Consistent(bodies, items) && locked <= bodies.Keys
    && (forall id :: At(bodies, id) == if id in s.base then Some(s.base[id].body) else None)
    && (forall p :: At(items, p) == Child(s.base, p))
  }

  /** In the first phase nothing else than a kept index on a moved dimension, or a closed DataSeries, gets in the
      way. */
  lemma DropsFitDiff(s: Sync, diffs: seq<SeriesDiff>, bodies: map<string, Body>, items: map<Path, Content>,
                     locked: set<string>, slow: set<string>, groups: set<string>, d: SeriesDiff)
    requires IsFullDiff(diffs, s.base, s.target, s.opts) && Starts(s, bodies, items, locked) && s.TargetFits(groups)
    requires d in diffs && !d.SeriesOp(Create) && !Refused(s, locked, slow)
    ensures DropsFit(RegistryOf(bodies, locked), items, d)
  {
    assert d.id in s.base.Keys + s.target.Keys;
    assert At(bodies, d.id).Some?;
    DroppedOwn(d);
    forall p | p in Dropped(d) ensures p in items && DropsChild(s, p) {
      DroppedPaths(s, diffs, p);
      assert At(items, p) == Child(s.base, p);
    }
    OpenBefore(s, bodies, locked, d.id);
    assert !Blocked(s, locked, slow, d.id);
    forall p, q | p in Dropped(d) && p.slot.Element? && Points(items, q, p)
      ensures q in Dropped(d)
    {
      DroppedPaths(s, diffs, q);
      IndexDropped(s, items, groups, q, p);
    }
  }

  /** An index that points at a dropped element is dropped, unless it is kept on a moved dimension. */
  lemma IndexDropped(s: Sync, items: map<Path, Content>, groups: set<string>, q: Path, p: Path)
    requires forall x :: At(items, x) == Child(s.base, x)
    requires forall x | x in items :: Typed(x.slot, items[x])
    requires s.TargetFits(groups)
    requires DropsChild(s, p) && p.slot.Element? && Points(items, q, p)
    ensures DropsChild(s, q) || (s.KeptIndexOn(q, p) && s.Moved(p))
  {
    assert At(items, q) == Child(s.base, q) && At(items, p) == Child(s.base, p);
    var t :| t in items[q].targets && TargetPath(q.series, t) == p;
    if Child(s.target, q).Some? {
      assert Typed(q.slot, items[q]) && Typed(q.slot, Child(s.target, q).value);
      if Child(s.target, q).value.targets == items[q].targets {
        assert Child(s.target, TargetPath(q.series, t)).Some?;
      }
    }
  }

  lemma KeptIndexNotDropped(s: Sync, q: Path, p: Path)
    requires s.KeptIndexOn(q, p) && s.Moved(p)
    ensures DropsChild(s, p) && !DropsChild(s, q) && p.series == q.series && p.slot.Element? && p.series in s.target
            && p.series in s.base
  {
  }

  /** An index kept on a moved dimension makes the server refuse the deletion of the dimension. */
  lemma KeptIndexRefused(s: Sync, d: SeriesDiff, reg: Registry, items: map<Path, Content>, q: Path, p: Path)
    requires IsSeriesDiff(d, d.id, At(s.base, d.id), At(s.target, d.id), s.opts) && p.series == d.id
    requires At(items, q) == Child(s.base, q)
    requires s.KeptIndexOn(q, p) && s.Moved(p)
    ensures !d.SeriesOp(Create) && !DropsFit(reg, items, d)
  {
    KeptIndexNotDropped(s, q, p);
    DroppedHere(s, d, p);
    DroppedHere(s, d, q);
    assert Points(items, q, p);
  }

  /** A dimension that stays refers to a DataSeries that stays. */
  lemma ReferenceSurvives(s: Sync, items: map<Path, Content>, groups: set<string>, p: Path)
    requires At(items, p) == Child(s.base, p) && p in items && Typed(p.slot, items[p])
    requires items[p].Dimension? && (items[p].reference in s.base)
    requires s.TargetFits(groups) && !DropsChild(s, p)
    ensures s.Survives(items[p].reference)
  {
    if Child(s.target, p).Some? {
      assert Typed(p.slot, Child(s.target, p).value);
    }
  }

  lemma BareFitsDiff(s: Sync, diffs: seq<SeriesDiff>, bodies: map<string, Body>, items: map<Path, Content>,
                     locked: set<string>, slow: set<string>, groups: set<string>)
    requires IsFullDiff(diffs, s.base, s.target, s.opts) && Starts(s, bodies, items, locked) && s.TargetFits(groups)
    requires !Refused(s, locked, slow)
    ensures BareFits(bodies, locked, items - DroppedBy(diffs), diffs)
  {
    forall op | op in BareOps(diffs)
      ensures if op.kind == Create then op.id !in bodies else op.id in RegistryOf(bodies, locked).open
      ensures op.kind != Delete ==> !Deprecated(op.payload.backend)
    {
      BareOpFits(s, diffs, bodies, items, locked, slow, op);
    }
    FreeDiff(s, diffs, bodies, items, locked, groups);
  }

  lemma BareOpFits(s: Sync, diffs: seq<SeriesDiff>, bodies: map<string, Body>, items: map<Path, Content>,
                   locked: set<string>, slow: set<string>, op: Op<Body>)
    requires IsFullDiff(diffs, s.base, s.target, s.opts) && Starts(s, bodies, items, locked)
    requires !Refused(s, locked, slow) && op in BareOps(diffs)
    ensures if op.kind == Create then op.id !in bodies else op.id in RegistryOf(bodies, locked).open
    ensures op.kind != Delete ==> !Deprecated(op.payload.backend)
  {
    BareOpOf(s, diffs, op);
    assert At(bodies, op.id) == if op.id in s.base then Some(s.base[op.id].body) else None;
    OpenBefore(s, bodies, locked, op.id);
    assert !Blocked(s, locked, slow, op.id);
  }

  lemma FreeDiff(s: Sync, diffs: seq<SeriesDiff>, bodies: map<string, Body>, items: map<Path, Content>,
                 locked: set<string>, groups: set<string>)
    requires IsFullDiff(diffs, s.base, s.target, s.opts) && Starts(s, bodies, items, locked) && s.TargetFits(groups)
    ensures FreeInOrder(items - DroppedBy(diffs), OfKind(BareOps(diffs), Delete))
  {
    FullDiffWellFormed(s, diffs);
    DeadAreDeleted(diffs);
    var deletes, remaining := OfKind(BareOps(diffs), Delete), items - DroppedBy(diffs);
    forall j, p | 0 <= j < |deletes| ensures !Refers(remaining, p, deletes[j].id) {
      assert deletes[j] in deletes && deletes[j].id in OpIds(deletes);
      NothingRefers(s, diffs, bodies, items, locked, groups, p, deletes[j].id);
    }
  }

  /** Once the first phase is over, nothing refers to a DataSeries that is to be deleted. */
  lemma NothingRefers(s: Sync, diffs: seq<SeriesDiff>, bodies: map<string, Body>, items: map<Path, Content>,
                      locked: set<string>, groups: set<string>, p: Path, id: string)
    requires IsFullDiff(diffs, s.base, s.target, s.opts) && Starts(s, bodies, items, locked) && s.TargetFits(groups)
    requires id in Dead(diffs)
    ensures !Refers(items - DroppedBy(diffs), p, id)
  {
    DeadIds(s, diffs, id);
    DroppedPaths(s, diffs, p);
    if Refers(items - DroppedBy(diffs), p, id) {
      assert At(items, p) == Child(s.base, p);
      ReferenceSurvives(s, items, groups, p);
    }
  }

  // ---------- creations and updates ----------

  /** The written elements of a diff, in terms of the definitions. */
  lemma PickedAt(s: Sync, d: SeriesDiff, elems: seq<Tagged>, e: Tagged)
    requires IsSeriesDiff(d, d.id, At(s.base, d.id), At(s.target, d.id), s.opts)
    requires e in elems && e.op in d.In(e.slot) && e.op.kind != Delete
    ensures
      var p := PathOf(d.id, e);
      && WritesChild(s, p) && e.op.payload == Child(s.target, p).value
      && (e.op.kind == Create <==> Child(s.base, p).None? || Recreates(s, p))
  {
  }

  /** Elements that stay next to elements that are written. */
  lemma ElementsApart(s: Sync, groups: set<string>, p: Path, q: Path)
    requires s.TargetFits(groups) && WritesChild(s, p)
    requires Child(s.base, q).Some? && !DropsChild(s, q) && q.series == p.series && q.slot.Element? && p.slot.Element?
             && q.id == p.id
    ensures p == q
  {
  }

  /** What the last phase finds in the DataSeries of a diff. */
  ghost predicate Ready(s: Sync, reg: Registry, kept: map<Path, Content>, groups: set<string>, id: string) {
    && s.TargetFits(groups) && (WritesTo(s, id) ==> id in reg.open)
    && (forall x | s.Survives(x) :: x in reg.known) && s.Survives(id)
    && forall p: Path | p.series == id :: At(kept, p) == if DropsChild(s, p) then None else Child(s.base, p)
  }

  lemma UpdateReady(s: Sync, reg: Registry, kept: map<Path, Content>, groups: set<string>, id: string, e: Tagged)
    requires Ready(s, reg, kept, groups, id)
    requires e.op.kind == Update && WritesChild(s, PathOf(id, e))
             && e.op.payload == Child(s.target, PathOf(id, e)).value
    requires Child(s.base, PathOf(id, e)).Some? && !Recreates(s, PathOf(id, e))
    ensures UpdateFits(reg, kept, id, e)
  {
  }

  lemma CreateReady(s: Sync, reg: Registry, kept: map<Path, Content>, groups: set<string>, id: string, e: Tagged)
    requires Ready(s, reg, kept, groups, id)
    requires e.op.kind == Create && WritesChild(s, PathOf(id, e))
             && e.op.payload == Child(s.target, PathOf(id, e)).value
    requires Child(s.base, PathOf(id, e)).None? || Recreates(s, PathOf(id, e))
    requires e.slot != IndexSlot
    ensures CreateFits(reg, kept, id, e)
    ensures e.slot.Element? ==> forall q | q in kept && q.slot.Element? && q.series == id :: q.id != e.op.id
  {
    var p := PathOf(id, e);
    assert At(kept, p) == None;
    assert Typed(p.slot, e.op.payload);
    forall q | q in kept && q.slot.Element? && q.series == id && q.id == p.id && p.slot.Element?
      ensures false
    {
      assert At(kept, q) == Child(s.base, q) && !DropsChild(s, q);
      ElementsApart(s, groups, p, q);
    }
  }

  lemma IndexReady(s: Sync, reg: Registry, kept: map<Path, Content>, after: map<Path, Content>, groups: set<string>,
                   id: string, e: Tagged)
    requires Ready(s, reg, kept, groups, id)
    requires e.op.kind == Create && WritesChild(s, PathOf(id, e))
             && e.op.payload == Child(s.target, PathOf(id, e)).value
    requires Child(s.base, PathOf(id, e)).None? || Recreates(s, PathOf(id, e))
    requires e.slot == IndexSlot && FirstWritten(s, kept, after, id)
    ensures CreateFits(reg, after, id, e)
  {
    var p := PathOf(id, e);
    assert At(after, p) == At(kept, p) == None;
    assert Typed(p.slot, e.op.payload);
    forall t | t in e.op.payload.targets ensures TargetPath(id, t) in after {
      var tp := TargetPath(id, t);
      assert Child(s.target, tp).Some?;
      if !WritesChild(s, tp) {
        assert Child(s.base, tp) == Child(s.target, tp);
        assert At(after, tp) == At(kept, tp);
      }
    }
  }

  /** Everything but the indexes of a DataSeries is written. */
  ghost predicate FirstWritten(s: Sync, kept: map<Path, Content>, after: map<Path, Content>, id: string) {
    forall p: Path | p.series == id ::
      if WritesChild(s, p) && p.slot != IndexSlot then p in after else At(after, p) == At(kept, p)
  }

  lemma CreatedIdsDistinct(s: Sync, d: SeriesDiff, groups: set<string>, elems: seq<Tagged>)
    requires s.TargetFits(groups) && DistinctPaths(Picked(elems, Create))
    requires IsSeriesDiff(d, d.id, At(s.base, d.id), At(s.target, d.id), s.opts)
    requires forall e | e in elems :: e.op in d.In(e.slot)
    ensures DistinctElementIds(Picked(elems, Create))
  {
    var creates := Picked(elems, Create);
    forall i, j | 0 <= i < j < |creates| && creates[i].slot.Element? && creates[j].slot.Element?
      ensures creates[i].op.id != creates[j].op.id
    {
      assert creates[i] in creates && creates[j] in creates;
      PickedAt(s, d, elems, creates[i]);
      PickedAt(s, d, elems, creates[j]);
    }
  }

  lemma ElemsReady(s: Sync, d: SeriesDiff, reg: Registry, kept: map<Path, Content>, groups: set<string>,
                   elems: seq<Tagged>)
    requires Ready(s, reg, kept, groups, d.id) && DistinctPaths(Picked(elems, Create))
    requires IsSeriesDiff(d, d.id, At(s.base, d.id), At(s.target, d.id), s.opts)
    requires forall e | e in elems :: e.op in d.In(e.slot) && e.slot != IndexSlot
    ensures ElemsFit(reg, kept, d.id, elems)
  {
    CreatedIdsDistinct(s, d, groups, elems);
    forall e | e in Picked(elems, Create) ensures CreateFits(reg, kept, d.id, e) {
      PickedAt(s, d, elems, e);
      CreateReady(s, reg, kept, groups, d.id, e);
    }
    forall e | e in Picked(elems, Update) ensures UpdateFits(reg, kept, d.id, e) {
      PickedAt(s, d, elems, e);
      UpdateReady(s, reg, kept, groups, d.id, e);
    }
  }

  lemma IndexesReady(s: Sync, d: SeriesDiff, reg: Registry, kept: map<Path, Content>, after: map<Path, Content>,
                     groups: set<string>, elems: seq<Tagged>)
    requires Ready(s, reg, kept, groups, d.id) && DistinctPaths(Picked(elems, Create))
    requires IsSeriesDiff(d, d.id, At(s.base, d.id), At(s.target, d.id), s.opts)
    requires forall e | e in elems :: e.op in d.In(e.slot) && e.slot == IndexSlot
    requires FirstWritten(s, kept, after, d.id)
    ensures ElemsFit(reg, after, d.id, elems)
  {
    CreatedIdsDistinct(s, d, groups, elems);
    forall e | e in Picked(elems, Create) ensures CreateFits(reg, after, d.id, e) {
      PickedAt(s, d, elems, e);
      IndexReady(s, reg, kept, after, groups, d.id, e);
    }
    forall e | e in Picked(elems, Update) ensures UpdateFits(reg, after, d.id, e) {
      PickedAt(s, d, elems, e);
      UpdateReady(s, reg, kept, groups, d.id, e);
      assert At(after, PathOf(d.id, e)) == At(kept, PathOf(d.id, e));
    }
  }

  lemma FirstPhaseWrites(s: Sync, d: SeriesDiff, kept: map<Path, Content>, after: map<Path, Content>)
    requires ShapedDiff(d) && IsSeriesDiff(d, d.id, At(s.base, d.id), At(s.target, d.id), s.opts)
    requires Wrote(kept, after, d.id, Written(ElementOps(d)) + Written(ConsumerOps(d)))
    ensures FirstWritten(s, kept, after, d.id)
  {
    DiffSendable(d);
    var first := Written(ElementOps(d)) + Written(ConsumerOps(d));
    forall p: Path | p.series == d.id
      ensures if WritesChild(s, p) && p.slot != IndexSlot then p in after else At(after, p) == At(kept, p)
    {
      OpsAt(s, d, p);
      if WritesChild(s, p) && p.slot != IndexSlot {
        var op :| op in d.In(p.slot) && op.id == p.id && op.kind != Delete;
        var e := Tagged(p.slot, op);
        assert e in first;
        assert At(after, PathOf(d.id, e)) == Some(op.payload);
      } else {
        forall e | e in first ensures PathOf(d.id, e) != p {
          assert e.op in d.In(e.slot);
        }
      }
    }
  }

  lemma WritesReady(s: Sync, d: SeriesDiff, reg: Registry, kept: map<Path, Content>, groups: set<string>)
    requires Ready(s, reg, kept, groups, d.id) && ShapedDiff(d)
    requires IsSeriesDiff(d, d.id, At(s.base, d.id), At(s.target, d.id), s.opts)
    ensures WritesFit(reg, kept, d)
  {
    DiffSendable(d);
    if AllWritten(d) != [] {
      SomethingWritten(s, d);
    }
    ElemsReady(s, d, reg, kept, groups, ElementOps(d));
    ElemsReady(s, d, reg, kept, groups, ConsumerOps(d));
    forall after | Wrote(kept, after, d.id, Written(ElementOps(d)) + Written(ConsumerOps(d)))
      ensures ElemsFit(reg, after, d.id, IndexOps(d))
    {
      FirstPhaseWrites(s, d, kept, after);
      IndexesReady(s, d, reg, kept, after, groups, IndexOps(d));
    }
  }

  lemma PushFitsDiff(s: Sync, diffs: seq<SeriesDiff>, bodies: map<string, Body>, items: map<Path, Content>,
                     locked: set<string>, slow: set<string>, groups: set<string>)
    requires IsFullDiff(diffs, s.base, s.target, s.opts) && Starts(s, bodies, items, locked) && s.TargetFits(groups)
    requires !Refused(s, locked, slow)
    ensures PushFits(bodies, locked, slow, items, groups, diffs)
  {
    FullDiffWellFormed(s, diffs);
    BareFitsDiff(s, diffs, bodies, items, locked, slow, groups);
    var reg := RegistryAfter(bodies, locked, slow, diffs);
    forall d | d in diffs && !d.SeriesOp(Create) ensures DropsFit(RegistryOf(bodies, locked), items, d) {
      DropsFitDiff(s, diffs, bodies, items, locked, slow, groups, d);
    }
    forall d | d in diffs && !d.SeriesOp(Delete) ensures WritesFit(reg, Kept(items, diffs), d) {
      ReadyFor(s, diffs, bodies, items, locked, slow, groups, d);
      WritesReady(s, d, reg, Kept(items, diffs), groups);
    }
    forall d | d in diffs ensures GroupsFit(reg, groups, d) {
      GroupsReady(s, diffs, bodies, items, locked, slow, groups, d);
    }
  }

  lemma ReadyFor(s: Sync, diffs: seq<SeriesDiff>, bodies: map<string, Body>, items: map<Path, Content>,
                 locked: set<string>, slow: set<string>, groups: set<string>, d: SeriesDiff)
    requires IsFullDiff(diffs, s.base, s.target, s.opts) && Starts(s, bodies, items, locked) && s.TargetFits(groups)
    requires d in diffs && !d.SeriesOp(Delete) && !Refused(s, locked, slow)
    ensures Ready(s, RegistryAfter(bodies, locked, slow, diffs), Kept(items, diffs), groups, d.id)
  {
    DeadIds(s, diffs, d.id);
    assert d.id in Live(diffs);
    var reg := RegistryAfter(bodies, locked, slow, diffs);
    forall x | s.Survives(x) ensures x in reg.known {
      BodiesConverge(s, diffs, bodies, x);
    }
    WriterOpen(s, diffs, bodies, items, locked, slow, d.id);
    forall p: Path | p.series == d.id
      ensures At(Kept(items, diffs), p) == if DropsChild(s, p) then None else Child(s.base, p)
    {
      KeptAt(s, diffs, items, p);
    }
  }

  /** What is written to may be modified. */
  lemma WriterOpen(s: Sync, diffs: seq<SeriesDiff>, bodies: map<string, Body>, items: map<Path, Content>,
                   locked: set<string>, slow: set<string>, id: string)
    requires IsFullDiff(diffs, s.base, s.target, s.opts) && Starts(s, bodies, items, locked)
    requires !Refused(s, locked, slow)
    ensures WritesTo(s, id) ==> id in RegistryAfter(bodies, locked, slow, diffs).open
  {
    if WritesTo(s, id) {
      assert id in s.target && !Blocked(s, locked, slow, id);
      assert At(bodies, id) == if id in s.base then Some(s.base[id].body) else None;
      OpenLater(s, diffs, bodies, locked, slow, id);
    }
  }

  lemma GroupsReady(s: Sync, diffs: seq<SeriesDiff>, bodies: map<string, Body>, items: map<Path, Content>,
                    locked: set<string>, slow: set<string>, groups: set<string>, d: SeriesDiff)
    requires IsFullDiff(diffs, s.base, s.target, s.opts) && Starts(s, bodies, items, locked) && s.TargetFits(groups)
    requires d in diffs && !Refused(s, locked, slow)
    ensures GroupsFit(RegistryAfter(bodies, locked, slow, diffs), groups, d)
  {
    WriterOpen(s, diffs, bodies, items, locked, slow, d.id);
    forall op | op in d.groups && op.kind != Delete
      ensures d.id in RegistryAfter(bodies, locked, slow, diffs).open && op.id in groups
    {
      GroupOpsAt(s, d, op.id);
      assert WritesGrant(s, (d.id, op.id));
    }
  }

  // ---------- one element per id, at every moment ----------

  /** No id names two structure elements of a DataSeries, of whichever of the nine kinds. */
  ghost predicate OneElementPerId(paths: set<Path>) {
    forall p, q | p in paths && q in paths && p.slot.Element? && q.slot.Element? && p.series == q.series ::
      p.id == q.id ==> p == q
  }

  /** The children that stay and the children that are written never share an id, also when an id moves from one kind
      to another. */
  lemma KeptAndWrittenApart(s: Sync, diffs: seq<SeriesDiff>, items: map<Path, Content>, groups: set<string>)
    requires IsFullDiff(diffs, s.base, s.target, s.opts) && s.TargetFits(groups)
    requires (forall p :: At(items, p) == Child(s.base, p)) && OneElementPerId(items.Keys)
    ensures OneElementPerId(Kept(items, diffs).Keys + WrittenBy(diffs))
  {
    var paths := Kept(items, diffs).Keys + WrittenBy(diffs);
    forall p | p in paths && p.slot.Element?
      ensures if p.series in s.target then Child(s.target, p).Some? else p in items
    {
      KeptOrWritten(s, diffs, items, p);
    }
  }

  lemma KeptOrWritten(s: Sync, diffs: seq<SeriesDiff>, items: map<Path, Content>, p: Path)
    requires IsFullDiff(diffs, s.base, s.target, s.opts) && At(items, p) == Child(s.base, p) && p.slot.Element?
    requires p in Kept(items, diffs).Keys + WrittenBy(diffs)
    ensures if p.series in s.target then Child(s.target, p).Some? else p in items
  {
    if p in WrittenBy(diffs) {
      var d, e :| d in diffs && !d.SeriesOp(Delete) && e in AllWritten(d) && PathOf(d.id, e) == p;
      WrittenIsWritten(s, d, p);
    } else {
      KeptAt(s, diffs, items, p);
    }
  }

  lemma WrittenIsWritten(s: Sync, d: SeriesDiff, p: Path)
    requires IsSeriesDiff(d, d.id, At(s.base, d.id), At(s.target, d.id), s.opts)
    requires p in Paths(d.id, AllWritten(d)) && p.series == d.id
    ensures WritesChild(s, p)
  {
    forall slot ensures WellShaped(d.In(slot)) {
      assert IsChildDiff(d.In(slot), At(s.base, d.id), At(s.target, d.id), slot, s.opts);
    }
    OpsAt(s, d, p);
    DropsAndWrites(d, p);
  }

  /** Every state a push goes through on its way, whether or not it succeeds, has ids that are unique across all nine
      kinds, if that is so at its start and in the target. */
  lemma UniqueThroughout(s: Sync, diffs: seq<SeriesDiff>, items: map<Path, Content>, groups: set<string>,
                         before: seq<set<Path>>, after: seq<set<Path>>)
    requires IsFullDiff(diffs, s.base, s.target, s.opts) && s.TargetFits(groups)
    requires (forall p :: At(items, p) == Child(s.base, p)) && OneElementPerId(items.Keys)
    requires StayedInTurn(before, after, items, diffs)
    ensures forall i | |before| <= i < |after| :: OneElementPerId(after[i])
  {
    KeptAndWrittenApart(s, diffs, items, groups);
  }

  // ---------- the main result ----------

  /** Pushing the diff of what the server holds and a well-formed target is accepted exactly when no index is kept on a
      dimension whose reference changes and no DataSeries is blocked, and then the server ends as the options say. */
  method Synchronize(pusher: DiffPusher, base: seq<Entry<DataSeries>>, target: seq<Entry<DataSeries>>, opts: Options)
      returns (ok: bool)
    requires pusher.server.Valid()
    requires Holds(Dict(base), pusher.server.bodies, pusher.server.items, pusher.server.grants)
    requires Sync(Dict(base), Dict(target), opts).TargetFits(pusher.server.groups)
    modifies pusher.server`bodies, pusher.server`locked, pusher.server`urls, pusher.server`owners, pusher.server`items,
             pusher.server`grants, pusher.server`history
    ensures pusher.server.Valid()
    ensures ok <==> !Refused(Sync(Dict(base), Dict(target), opts), old(pusher.server.locked), pusher.server.slow)
    ensures ok ==> EndsAs(Sync(Dict(base), Dict(target), opts), pusher.server.bodies, pusher.server.items,
                          pusher.server.grants)
    ensures OneElementPerId(old(pusher.server.items).Keys) ==>
              forall i | |old(pusher.server.history)| <= i < |pusher.server.history| ::
                OneElementPerId(pusher.server.history[i])
  {
    var diffs := DiffAllDataSeries(base, target, opts);
    ghost var s := Sync(Dict(base), Dict(target), opts);
    ghost var bodies, items, grants := pusher.server.bodies, pusher.server.items, pusher.server.grants;
    FullDiffWellFormed(s, diffs);
    Expected(s, diffs, bodies, items, pusher.server.locked, pusher.server.slow, grants, pusher.server.groups);
    ghost var history, groups := pusher.server.history, pusher.server.groups;
    ok := pusher.Push(diffs);
    if OneElementPerId(items.Keys) {
      UniqueThroughout(s, diffs, items, groups, history, pusher.server.history);
    }
  }

  ghost predicate EndsAs(s: Sync, bodies: map<string, Body>, items: map<Path, Content>,
                         grants: map<(string, string), set<string>>)
  {
    && (forall id :: At(bodies, id) == s.BodyAfter(id))
    && (forall p :: At(items, p) == s.ChildAfter(p))
    && (forall k :: At(grants, k) == s.GrantAfter(k))
  }

  /** With the options that delete what target does not have, the server ends with target; without deletions, what
      target does not name is left as it was. */
  lemma Mirrors(s: Sync, bodies: map<string, Body>, items: map<Path, Content>,
                grants: map<(string, string), set<string>>)
    requires EndsAs(s, bodies, items, grants)
    ensures s.opts.deleteInBase ==>
              forall id :: At(bodies, id) == if id in s.target then Some(s.target[id].body) else None
    ensures s.opts.deleteInBase && s.opts.includeConsumers && s.opts.removeMissingConsumers ==>
              forall p :: At(items, p) == Child(s.target, p)
    ensures !s.opts.deleteInBase ==> forall id | id !in s.target ::
              && At(bodies, id) == (if id in s.base then Some(s.base[id].body) else None)
              && (forall p: Path | p.series == id :: At(items, p) == Child(s.base, p))
              && forall g :: At(grants, (id, g)) == Grant(s.base, (id, g))
    ensures !s.opts.includeConsumers ==> forall p: Path | p.series in s.target && p.slot == ConsumerSlot ::
              At(items, p) == Child(s.base, p)
    ensures s.opts.includeGroupPermissions ==>
              forall k: (string, string) | k.0 in s.target && Grant(s.target, k).Some? ::
                At(grants, k) == if s.opts.revokeMissingGroupPermissions || Grant(s.base, k).None?
                                 then Grant(s.target, k)
                                 else Some(Grant(s.target, k).value + Grant(s.base, k).value)
  {
    assert forall p: Path | p.series !in s.target :: Child(s.target, p) == None;
  }

  lemma Expected(s: Sync, diffs: seq<SeriesDiff>, bodies: map<string, Body>, items: map<Path, Content>,
                 locked: set<string>, slow: set<string>, grants: map<(string, string), set<string>>,
                 groups: set<string>)
    requires IsFullDiff(diffs, s.base, s.target, s.opts) && Consistent(bodies, items) && locked <= bodies.Keys
    requires Holds(s.base, bodies, items, grants) && s.TargetFits(groups)
    ensures PushFits(bodies, locked, slow, items, groups, diffs) <==> !Refused(s, locked, slow)
    ensures forall bodies', items', grants' | Pushed(bodies, items, grants, bodies', items', grants', diffs) ::
              EndsAs(s, bodies', items', grants')
  {
    if !Refused(s, locked, slow) {
      PushFitsDiff(s, diffs, bodies, items, locked, slow, groups);
    } else if s.KeptIndexOnMovedDimension() {
      var q, p :| s.KeptIndexOn(q, p) && s.Moved(p);
      KeptIndexNotDropped(s, q, p);
      var d := DiffOf(s, diffs, p.series);
      KeptIndexRefused(s, d, RegistryOf(bodies, locked), items, q, p);
    } else {
      var id :| Blocked(s, locked, slow, id);
      BlockedRefused(s, diffs, bodies, items, locked, slow, groups, id);
    }
    forall bodies', items', grants' | Pushed(bodies, items, grants, bodies', items', grants', diffs)
      ensures EndsAs(s, bodies', items', grants')
    {
      forall id ensures At(bodies', id) == s.BodyAfter(id) {
        BodiesConverge(s, diffs, bodies, id);
      }
      forall p ensures At(items', p) == s.ChildAfter(p) {
        ChildConverges(s, diffs, items, items', p);
      }
      forall k ensures At(grants', k) == s.GrantAfter(k) {
        GrantConverges(s, diffs, grants, grants', k);
      }
    }
  }

  /** After a full push nothing is left to do: diffing what the server now holds against the target again
      yields no operation on any DataSeries, structure element, index or consumer. */
  lemma RediffIsEmpty(s: Sync, now: map<string, DataSeries>, diffs: seq<SeriesDiff>)
    requires s.opts.deleteInBase && s.opts.removeMissingConsumers && s.opts.includeConsumers
    requires forall id :: (if id in now then Some(now[id].body) else None) == s.BodyAfter(id)
    requires forall p :: Child(now, p) == s.ChildAfter(p)
    requires IsFullDiff(diffs, now, s.target, s.opts)
    ensures forall d | d in diffs :: d.series == None && forall slot :: d.In(slot) == []
  {
    var again := Sync(now, s.target, s.opts);
    forall p ensures Child(now, p) == Child(s.target, p) {
      assert Child(now, p) == s.ChildAfter(p);
    }
    forall d | d in diffs ensures d.series == None && forall slot :: d.In(slot) == [] {
      assert (if d.id in now then Some(now[d.id].body) else None) == s.BodyAfter(d.id);
      forall slot ensures d.In(slot) == [] {
        assert d.In(slot) == [] || d.In(slot)[0] in d.In(slot);
        forall op | op in d.In(slot) ensures false {
          OpsAt(again, d, Path(d.id, slot, op.id));
        }
      }
    }
  }

  // ---------- the refused cases exist ----------

  /** One DataSeries whose only dimension refers to `reference`, with an index on that dimension. */
  function Indexed(reference: string): DataSeries {
    DataSeries(NO_BODY, NO_ELEMENTS.(dimensions := [Entry("d", Dimension("", reference))]),
               [Entry("i", Index("", [IndexTarget(Dim, "d")]))], [], [])
  }

  function Small(reference: string): map<string, DataSeries> {
    map["a" := Indexed(reference), "b" := DataSeries(NO_BODY, NO_ELEMENTS, [], [], [])]
  }

  /** Both sides are well formed, only the reference of the dimension differs. */
  lemma MovedDimensionRefused(opts: Options) returns (s: Sync)
    ensures s.opts == opts && s.TargetFits({}) && Sync(s.target, s.base, opts).TargetFits({})
    ensures s.KeptIndexOnMovedDimension() && Refused(s, {}, {})
  {
    s := Sync(Small("a"), Small("b"), opts);
    SmallFits("a", "b", opts);
    SmallFits("b", "a", opts);
    SmallChildren("a");
    SmallChildren("b");
    assert s.KeptIndexOn(Path("a", IndexSlot, "i"), Path("a", Element(Dim), "d")) by {
      assert TargetPath("a", [IndexTarget(Dim, "d")][0]) == Path("a", Element(Dim), "d");
    }
    assert s.Moved(Path("a", Element(Dim), "d"));
  }

  lemma SmallFits(from: string, to: string, opts: Options)
    requires from in {"a", "b"} && to in {"a", "b"}
    ensures Sync(Small(from), Small(to), opts).TargetFits({})
  {
    SmallChildren(to);
  }

  lemma SmallChildren(reference: string)
    ensures forall p :: Child(Small(reference), p) ==
              if p == Path("a", Element(Dim), "d") then Some(Dimension("", reference))
              else if p == Path("a", IndexSlot, "i") then Some(Index("", [IndexTarget(Dim, "d")])) else None
    ensures forall id :: Groups(At(Small(reference), id)) == map[]
  {
    var dims := [Entry("d", Dimension("", reference))];
    var indexes := [Entry("i", Index("", [IndexTarget(Dim, "d")]))];
    assert Dict(dims) == map["d" := Dimension("", reference)] by { assert dims[..0] == []; }
    assert Dict(indexes) == map["i" := Index("", [IndexTarget(Dim, "d")])] by { assert indexes[..0] == []; }
  }

  /** One DataSeries with nothing but a fact, or with nothing at all. */
  function PlainSeries(backend: Backend, fact: bool): map<string, DataSeries> {
    map["a" := DataSeries(Body(backend, ""),
                          if fact then NO_ELEMENTS.(floatFacts := [Entry("f", Fact(""))]) else NO_ELEMENTS, [], [], [])]
  }

  lemma PlainChildren(backend: Backend, fact: bool)
    ensures forall p :: Child(PlainSeries(backend, fact), p) ==
              if fact && p == Path("a", Element(FloatFact), "f") then Some(Fact("")) else None
    ensures forall id :: Groups(At(PlainSeries(backend, fact), id)) == map[]
  {
    var facts := [Entry("f", Fact(""))];
    assert Dict(facts) == map["f" := Fact("")] by { assert facts[..0] == []; }
  }

  /** Nothing leads off a deprecated backend, or onto one. */
  lemma DeprecatedRefused(opts: Options, from: Backend, to: Backend) returns (s: Sync)
    requires from != to && (Deprecated(from) || Deprecated(to))
    ensures s.opts == opts && s.TargetFits({}) && Sync(s.target, s.base, opts).TargetFits({})
    ensures !s.KeptIndexOnMovedDimension() && Refused(s, {}, {})
  {
    s := Sync(PlainSeries(from, false), PlainSeries(to, false), opts);
    PlainChildren(from, false);
    PlainChildren(to, false);
    assert Blocked(s, {}, {}, "a");
  }

  /** A backend can be changed, but nothing more can be written before the data have moved. */
  lemma StillMovingRefused(opts: Options) returns (s: Sync)
    ensures s.opts == opts && s.TargetFits({}) && Sync(s.target, s.base, opts).TargetFits({})
    ensures Refused(s, {}, {"a"}) && !Refused(s, {}, {})
  {
    s := Sync(PlainSeries(FlatHistory, false), PlainSeries(NoHistory, true), opts);
    PlainChildren(FlatHistory, false);
    PlainChildren(NoHistory, true);
    assert WritesChild(s, Path("a", Element(FloatFact), "f"));
    assert Blocked(s, {}, {"a"}, "a");
    NothingBlocks(s);
  }

  lemma NothingBlocks(s: Sync)
    requires s == Sync(PlainSeries(FlatHistory, false), PlainSeries(NoHistory, true), s.opts)
    ensures !Refused(s, {}, {})
  {
    PlainChildren(NoHistory, true);
    PlainChildren(FlatHistory, false);
    forall id ensures !Blocked(s, {}, {}, id) {
    }
  }
}
