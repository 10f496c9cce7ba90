/** Replaying the diffs against the server: deletions everywhere, then the DataSeries themselves,
    then creations and updates, then permissions. The first refused request stops the push. */
module Pushing {
  import opened Basics
  import opened ListDiff
  import opened Definitions
  import opened Api
  import opened PushSpec

  class DiffPusher {
    const server: Server

    constructor (server: Server)
      ensures this.server == server
    {
      this.server := server;
    }

    /** The loop that sorts operations into buckets. */
    method Bucket(elems: seq<Tagged>) returns (deletes: seq<Tagged>, creates: seq<Tagged>, updates: seq<Tagged>)
      ensures deletes == Picked(elems, Delete) && creates == Picked(elems, Create) && updates == Picked(elems, Update)
    {
      deletes, creates, updates := [], [], [];
      for i := 0 to |elems|
        invariant deletes == Picked(elems[..i], Delete) && creates == Picked(elems[..i], Create)
                  && updates == Picked(elems[..i], Update)
      {
        assert elems[..i + 1][..i] == elems[..i];
        match elems[i].op.kind {
          case Delete => deletes := deletes + [elems[i]];
          case Create => creates := creates + [elems[i]];
          case Update => updates := updates + [elems[i]];
        }
      }
      assert elems[..|elems|] == elems;
    }

    /** Sends the deletions in a bucket. */
    method SendDeletes(series: string, deletes: seq<Tagged>, elements: bool) returns (ok: bool)
      requires server.Valid() && DistinctPaths(deletes) && Alike(deletes, elements)
      modifies server`items, server`history
      ensures server.Valid()
      ensures ok <==> SlotDropsFit(server.Registered(), old(server.items), series, deletes)
      ensures ok ==> server.items == old(server.items) - Paths(series, deletes)
      ensures Stayed(old(server.history), server.history, old(server.items).Keys)
    {
      assert forall q | q in server.items :: Typed(q.slot, server.items[q]);
      ghost var before, gone, history := server.items, {}, server.history;
      for j := 0 to |deletes|
        invariant server.Valid() && Stayed(history, server.history, before.Keys)
        invariant gone == Paths(series, deletes[..j]) && server.items == before - gone
        invariant forall p | p in gone :: Deletable(before, p)
        invariant j > 0 ==> series in server.Registered().open
      {
        ghost var p := PathOf(series, deletes[j]);
        PathsSnoc(series, deletes, j);
        DeletableAmongAlike(before, gone, p);
        ghost var between := server.history;
        ok := server.DeleteItem(PathOf(series, deletes[j]));
        if !ok {
          assert deletes[j] in deletes;
          return;
        }
        RemoveInSteps(before, gone, {p});
        StayedMore(history, between, before.Keys, server.items.Keys);
        gone := gone + {p};
      }
      ok := true;
      assert deletes[..|deletes|] == deletes;
      assert forall e | e in deletes :: PathOf(series, e) in gone;
    }

    /** Deletions of structure elements, or of the children of another slot, of one DataSeries. */
    method DeleteChildren(series: string, elems: seq<Tagged>, elements: bool) returns (ok: bool)
      requires server.Valid() && DistinctPaths(Picked(elems, Delete)) && Alike(elems, elements)
      modifies server`items, server`history
      ensures server.Valid()
      ensures ok <==> SlotDropsFit(server.Registered(), old(server.items), series, Picked(elems, Delete))
      ensures ok ==> server.items == old(server.items) - Paths(series, Picked(elems, Delete))
      ensures Stayed(old(server.history), server.history, old(server.items).Keys)
    {
      var deletes, _, _ := Bucket(elems);
      ok := SendDeletes(series, deletes, elements);
    }

    /** What travels: the reference of a dimension is replaced by the url looked up for it. */
    method ToPayload(c: Content, urls: map<string, Url>) returns (payload: Option<Payload>)
      requires server.Valid() && urls == server.urls
      ensures payload == None <==> c.Dimension? && c.reference !in server.Registered().known
      ensures payload.Some? ==> server.Resolve(payload.value) == Some(c)
    {
      if c.Dimension? {
        if c.reference !in urls {
          return None;
        }
        return Some(Reference(c.body, urls[c.reference]));
      }
      return Some(Plain(c));
    }

    /** Sends the creations in a bucket; a dimension travels with the url of what it references,
        which must be among the listed ones. */
    method SendCreates(series: string, creates: seq<Tagged>, urls: map<string, Url>, ghost elements: bool)
      returns (ok: bool)
      requires server.Valid() && urls == server.urls && DistinctPaths(creates) && Alike(creates, elements)
      modifies server`items, server`history
      ensures server.Valid()
      ensures ok <==> CreatesFit(server.Registered(), old(server.items), series, creates)
      ensures ok ==> Wrote(old(server.items), server.items, series, creates)
      ensures Stayed(old(server.history), server.history, old(server.items).Keys + Paths(series, creates))
    {
      ghost var before, reg, history := server.items, server.Registered(), server.history;
      for j := 0 to |creates|
        invariant server.Valid()
        invariant Stayed(history, server.history, before.Keys + Paths(series, creates))
        invariant Wrote(before, server.items, series, creates[..j])
        invariant CreatesFit(reg, before, series, creates[..j])
      {
        var e := creates[j];
        PathsSnoc(series, creates, j);
        FitsInTurn(reg, before, server.items, series, creates, j, elements);
        CreatesFitSnoc(reg, before, series, creates, j, elements);
        WroteMore(before, server.items, series, creates[..j], e);
        WroteWithin(before, server.items, series, creates, j);
        ghost var between := server.history;
        ok := CreateOne(series, e, urls);
        if !ok {
          return;
        }
        StayedMore(history, between, before.Keys + Paths(series, creates), server.items.Keys);
      }
      ok := true;
      assert creates[..|creates|] == creates;
    }

    method CreateOne(series: string, e: Tagged, urls: map<string, Url>) returns (ok: bool)
      requires server.Valid() && urls == server.urls
      modifies server`items, server`history
      ensures server.Valid()
      ensures ok <==> CreateFits(server.Registered(), old(server.items), series, e)
      ensures ok ==> server.items == old(server.items)[PathOf(series, e) := e.op.payload]
      ensures server.history == if ok then old(server.history) + [server.items.Keys] else old(server.history)
    {
      var payload := ToPayload(e.op.payload, urls);
      if payload.None? {
        return false;
      }
      ok := server.PostItem(PathOf(series, e), payload.value);
    }

    method SendUpdates(series: string, updates: seq<Tagged>, urls: map<string, Url>) returns (ok: bool)
      requires server.Valid() && urls == server.urls && DistinctPaths(updates)
      modifies server`items, server`history
      ensures server.Valid()
      ensures ok <==> UpdatesFit(server.Registered(), old(server.items), series, updates)
      ensures ok ==> Wrote(old(server.items), server.items, series, updates)
      ensures Stayed(old(server.history), server.history, old(server.items).Keys + Paths(series, updates))
    {
      ghost var before, reg, history := server.items, server.Registered(), server.history;
      for j := 0 to |updates|
        invariant server.Valid()
        invariant Stayed(history, server.history, before.Keys + Paths(series, updates))
        invariant Wrote(before, server.items, series, updates[..j])
        invariant UpdatesFit(reg, before, series, updates[..j])
      {
        var e := updates[j];
        assert e in updates;
        PathsSnoc(series, updates, j);
        UpdateFitsLater(reg, before, server.items, series, updates[..j], e);
        WroteMore(before, server.items, series, updates[..j], e);
        WroteWithin(before, server.items, series, updates, j);
        ghost var between := server.history;
        ok := UpdateOne(series, e, urls);
        if !ok {
          return;
        }
        StayedMore(history, between, before.Keys + Paths(series, updates), server.items.Keys);
      }
      ok := true;
      assert updates[..|updates|] == updates;
    }

    method UpdateOne(series: string, e: Tagged, urls: map<string, Url>) returns (ok: bool)
      requires server.Valid() && urls == server.urls
      modifies server`items, server`history
      ensures server.Valid()
      ensures ok <==> UpdateFits(server.Registered(), old(server.items), series, e)
      ensures ok ==> server.items == old(server.items)[PathOf(series, e) := e.op.payload]
      ensures server.history == if ok then old(server.history) + [server.items.Keys] else old(server.history)
    {
      var payload := ToPayload(e.op.payload, urls);
      if payload.None? {
        return false;
      }
      ok := server.PatchItem(PathOf(series, e), payload.value);
    }

    /** Creations, then updates, of structure elements or of the children of another slot. */
    method CreateUpdateChildren(series: string, elems: seq<Tagged>, urls: map<string, Url>, ghost elements: bool)
        returns (ok: bool)
      requires server.Valid() && urls == server.urls && Alike(elems, elements)
      requires Sendable(series, elems)
      modifies server`items, server`history
      ensures server.Valid()
      ensures ok <==> ElemsFit(server.Registered(), old(server.items), series, elems)
      ensures ok ==> Wrote(old(server.items), server.items, series, Written(elems))
      ensures Stayed(old(server.history), server.history, old(server.items).Keys + Paths(series, Written(elems)))
    {
      ghost var before, history := server.items, server.history;
      ghost var room := before.Keys + Paths(series, Written(elems));
      var _, creates, updates := Bucket(elems);
      ok := SendCreates(series, creates, urls, elements);
      StayedOn(history, history, server.history, {}, before.Keys + Paths(series, creates), room);
      if !ok {
        return;
      }
      ghost var middle, between := server.items, server.history;
      WroteKeys(before, middle, series, creates);
      forall e | e in updates
        ensures UpdateFits(server.Registered(), before, series, e) <==>
                UpdateFits(server.Registered(), middle, series, e)
      {
        assert PathOf(series, e) in Paths(series, updates);
        UpdateFitsLater(server.Registered(), before, middle, series, creates, e);
      }
      ok := SendUpdates(series, updates, urls);
      StayedOn(history, between, server.history, room, middle.Keys + Paths(series, updates), room);
      if ok {
        WroteBoth(before, middle, server.items, series, creates, updates);
      }
    }

    /** The first phase for one diff. */
    method DeleteForDiff(diff: SeriesDiff) returns (ok: bool)
      requires server.Valid() && ShapedDiff(diff)
      modifies server`items, server`history
      ensures server.Valid()
      ensures ok <==> DropsFit(server.Registered(), old(server.items), diff)
      ensures ok ==> server.items == old(server.items) - Dropped(diff)
      ensures Stayed(old(server.history), server.history, old(server.items).Keys)
    {
      DiffSendable(diff);
      ok := server.GetSeries(diff.id);
      if !ok {
        return;
      }
      DropsInSteps(server.Registered(), server.items, diff, Picked(IndexOps(diff), Delete),
                   Picked(ElementOps(diff), Delete), Picked(ConsumerOps(diff), Delete));
      ghost var room, h0 := server.items.Keys, server.history;
      ok := DeleteChildren(diff.id, IndexOps(diff), false);
      if !ok {
        return;
      }
      ghost var middle, h1 := server.items.Keys, server.history;
      ok := DeleteChildren(diff.id, ElementOps(diff), true);
      StayedOn(h0, h1, server.history, room, middle, room);
      if !ok {
        return;
      }
      ghost var late, h2 := server.items.Keys, server.history;
      ok := DeleteChildren(diff.id, ConsumerOps(diff), false);
      StayedOn(h0, h2, server.history, room, late, room);
    }

    method DeletePhase(diffs: seq<SeriesDiff>) returns (ok: bool)
      requires server.Valid() && WellFormed(diffs)
      modifies server`items, server`history
      ensures server.Valid()
      ensures ok <==> AllDropsFit(server.Registered(), old(server.items), diffs)
      ensures ok ==> server.items == old(server.items) - DroppedBy(diffs)
      ensures Stayed(old(server.history), server.history, old(server.items).Keys)
    {
      ghost var before, gone, history := server.items, {}, server.history;
      for i := 0 to |diffs|
        invariant server.Valid() && Stayed(history, server.history, before.Keys)
        invariant gone == DroppedBy(diffs[..i]) && server.items == before - gone
        invariant forall d | d in diffs[..i] && !d.SeriesOp(Create) :: DropsFit(server.Registered(), before, d)
      {
        DroppedByMore(diffs, i);
        if !diffs[i].SeriesOp(Create) {
          DropsFitElsewhere(server.Registered(), before, gone, diffs[i]);
          ok := DeleteForDiff(diffs[i]);
          if !ok {
            assert diffs[i] in diffs;
            return;
          }
          RemoveInSteps(before, gone, Dropped(diffs[i]));
          gone := gone + Dropped(diffs[i]);
        }
      }
      ok := true;
      assert diffs[..|diffs|] == diffs;
    }

    /** The loop that sorts the operations on DataSeries into buckets. */
    method BucketBare(diffs: seq<SeriesDiff>)
      returns (deletes: seq<Op<Body>>, creates: seq<Op<Body>>, updates: seq<Op<Body>>)
      ensures deletes == OfKind(BareOps(diffs), Delete)
      ensures creates == OfKind(BareOps(diffs), Create)
      ensures updates == OfKind(BareOps(diffs), Update)
    {
      deletes, creates, updates := [], [], [];
      for i := 0 to |diffs|
        invariant deletes == OfKind(BareOps(diffs[..i]), Delete)
        invariant creates == OfKind(BareOps(diffs[..i]), Create)
        invariant updates == OfKind(BareOps(diffs[..i]), Update)
      {
        BareOpsMore(diffs, i, Delete);
        BareOpsMore(diffs, i, Create);
        BareOpsMore(diffs, i, Update);
        if diffs[i].series.Some? {
          var op := diffs[i].series.value;
          match op.kind {
            case Delete => deletes := deletes + [op];
            case Create => creates := creates + [op];
            case Update => updates := updates + [op];
          }
        }
      }
      assert diffs[..|diffs|] == diffs;
    }

    method SendSeriesDeletes(deletes: seq<Op<Body>>) returns (ok: bool)
      requires server.Valid() && DistinctIds(deletes) && forall op | op in deletes :: op.kind == Delete
      modifies server`bodies, server`locked, server`urls, server`owners, server`items, server`grants,
               server`history
      ensures server.Valid()
      ensures ok <==> DeletesFit(old(server.bodies), old(server.locked), old(server.items), deletes)
      ensures ok ==> server.bodies == PerformAll(old(server.bodies), deletes)
      ensures ok ==> server.locked == old(server.locked) - OpIds(deletes)
      ensures ok ==> server.items == Outside(old(server.items), OpIds(deletes))
      ensures ok ==> server.grants == GrantsOutside(old(server.grants), OpIds(deletes))
      ensures Stayed(old(server.history), server.history, old(server.items).Keys)
    {
      ghost var bodies, locked, items, grants := server.bodies, server.locked, server.items, server.grants;
      ghost var history := server.history;
      for j := 0 to |deletes|
        invariant server.Valid() && Stayed(history, server.history, items.Keys)
        invariant AfterDeletes(bodies, locked, items, grants, deletes[..j],
                               server.bodies, server.locked, server.items, server.grants)
        invariant DeletesFit(bodies, locked, items, deletes[..j])
      {
        DeleteStep(bodies, locked, items, deletes, j);
        AfterDeletesMore(bodies, locked, items, grants, deletes, j);
        ghost var between := server.history;
        ok := server.DeleteSeries(deletes[j].id);
        if !ok {
          return;
        }
        StayedMore(history, between, items.Keys, server.items.Keys);
      }
      ok := true;
      assert deletes[..|deletes|] == deletes;
    }

    method SendSeriesCreates(creates: seq<Op<Body>>) returns (ok: bool)
      requires server.Valid() && forall op | op in creates :: op.kind == Create
      modifies server`bodies, server`urls, server`owners
      ensures server.Valid()
      ensures ok <==> SeriesCreatesFit(old(server.bodies), creates)
      ensures ok ==> server.bodies == PerformAll(old(server.bodies), creates)
    {
      ghost var bodies := server.bodies;
      for j := 0 to |creates|
        invariant server.Valid()
        invariant server.bodies == PerformAll(bodies, creates[..j])
        invariant SeriesCreatesFit(bodies, creates[..j])
      {
        CreateStep(bodies, creates, j);
        ok := server.PostSeries(creates[j].id, creates[j].payload);
        if !ok {
          return;
        }
      }
      ok := true;
      assert creates[..|creates|] == creates;
    }

    method SendSeriesUpdates(updates: seq<Op<Body>>) returns (ok: bool)
      requires server.Valid() && DistinctIds(updates) && forall op | op in updates :: op.kind == Update
      modifies server`bodies, server`locked
      ensures server.Valid()
      ensures ok <==> SeriesUpdatesFit(old(server.bodies), old(server.locked), updates)
      ensures ok ==> server.bodies == PerformAll(old(server.bodies), updates)
      ensures ok ==> server.locked == old(server.locked) + Locks(old(server.bodies), server.slow, updates)
    {
      ghost var bodies, locked := server.bodies, server.locked;
      assert locked + Locks(bodies, server.slow, updates[..0]) == locked;
      for j := 0 to |updates|
        invariant server.Valid()
        invariant server.bodies == PerformAll(bodies, updates[..j])
        invariant server.locked == locked + Locks(bodies, server.slow, updates[..j])
        invariant SeriesUpdatesFit(bodies, locked, updates[..j])
      {
        UpdateStep(bodies, locked, server.slow, updates, j);
        ok := server.PatchSeries(updates[j].id, updates[j].payload);
        if !ok {
          return;
        }
      }
      ok := true;
      assert updates[..|updates|] == updates;
    }

    /** Deletions, creations and updates of DataSeries themselves. */
    method MigrateBareDataSeries(diffs: seq<SeriesDiff>) returns (ok: bool)
      requires server.Valid() && WellFormed(diffs)
      modifies server`bodies, server`locked, server`urls, server`owners, server`items, server`grants,
               server`history
      ensures server.Valid()
      ensures ok <==> BareFits(old(server.bodies), old(server.locked), old(server.items), diffs)
      ensures ok ==> server.bodies == PerformAll(old(server.bodies), BareOps(diffs))
      ensures ok ==> server.locked == LockedAfter(old(server.bodies), old(server.locked), server.slow, diffs)
      ensures ok ==> server.items == Outside(old(server.items), Dead(diffs))
      ensures ok ==> server.grants == GrantsOutside(old(server.grants), Dead(diffs))
      ensures Stayed(old(server.history), server.history, old(server.items).Keys)
    {
      var deletes, creates, updates := BucketBare(diffs);
      BarePlan(server.bodies, server.locked, server.slow, server.items, diffs, deletes, creates, updates);
      ghost var grants := server.grants;
      ok := SendSeriesDeletes(deletes);
      if ok {
        assert server.grants == GrantsOutside(grants, Dead(diffs));
        ok := SendSeriesWrites(creates, updates);
      }
    }

    method SendSeriesWrites(creates: seq<Op<Body>>, updates: seq<Op<Body>>) returns (ok: bool)
      requires server.Valid() && DistinctIds(updates)
      requires (forall op | op in creates :: op.kind == Create) && (forall op | op in updates :: op.kind == Update)
      modifies server`bodies, server`locked, server`urls, server`owners
      ensures server.Valid()
      ensures var late := PerformAll(old(server.bodies), creates);
              && (ok <==> SeriesCreatesFit(old(server.bodies), creates)
                          && SeriesUpdatesFit(late, old(server.locked), updates))
              && (ok ==> server.bodies == PerformAll(late, updates)
                         && server.locked == old(server.locked) + Locks(late, server.slow, updates))
    {
      ok := SendSeriesCreates(creates);
      if ok {
        ok := SendSeriesUpdates(updates);
      }
    }

    /** The last phase for one diff: indexes come after the elements they may point at. */
    method WriteForDiff(diff: SeriesDiff, urls: map<string, Url>) returns (ok: bool)
      requires server.Valid() && ShapedDiff(diff) && urls == server.urls
      modifies server`items, server`history
      ensures server.Valid()
      ensures ok <==> WritesFit(server.Registered(), old(server.items), diff)
      ensures ok ==> Wrote(old(server.items), server.items, diff.id, AllWritten(diff))
      ensures Stayed(old(server.history), server.history, old(server.items).Keys + Paths(diff.id, AllWritten(diff)))
    {
      DiffSendable(diff);
      ghost var before, h0, room := server.items, server.history, server.items.Keys + Paths(diff.id, AllWritten(diff));
      ok := CreateUpdateChildren(diff.id, ElementOps(diff), urls, true);
      StayedOn(h0, h0, server.history, {}, before.Keys + Paths(diff.id, Written(ElementOps(diff))), room);
      if !ok {
        return;
      }
      ghost var middle, h1 := server.items, server.history;
      WroteKeys(before, middle, diff.id, Written(ElementOps(diff)));
      ConsumersFitLater(server.Registered(), before, middle, diff);
      ok := CreateUpdateChildren(diff.id, ConsumerOps(diff), urls, false);
      StayedOn(h0, h1, server.history, room, middle.Keys + Paths(diff.id, Written(ConsumerOps(diff))), room);
      if !ok {
        return;
      }
      ghost var late, h2 := server.items, server.history;
      WroteKeys(middle, late, diff.id, Written(ConsumerOps(diff)));
      WrittenApart(diff);
      WroteBoth(before, middle, late, diff.id, Written(ElementOps(diff)), Written(ConsumerOps(diff)));
      IndexesFitThen(server.Registered(), before, late, diff);
      ok := server.GetSeries(diff.id);
      if !ok {
        return;
      }
      ok := CreateUpdateChildren(diff.id, IndexOps(diff), urls, false);
      StayedOn(h0, h2, server.history, room, late.Keys + Paths(diff.id, Written(IndexOps(diff))), room);
      if ok {
        WroteBoth(before, late, server.items, diff.id, Written(ElementOps(diff)) + Written(ConsumerOps(diff)),
                  Written(IndexOps(diff)));
        if AllWritten(diff) != [] {
          WritesOpen(server.Registered(), before, late, diff);
        }
      }
    }

    method WritePhase(diffs: seq<SeriesDiff>, urls: map<string, Url>) returns (ok: bool)
      requires server.Valid() && WellFormed(diffs) && urls == server.urls
      modifies server`items, server`history
      ensures server.Valid()
      ensures ok <==> AllWritesFit(server.Registered(), old(server.items), diffs)
      ensures ok ==> WroteAll(old(server.items), server.items, diffs)
      ensures Stayed(old(server.history), server.history, old(server.items).Keys + WrittenBy(diffs))
    {
      ghost var before, reg, history := server.items, server.Registered(), server.history;
      for i := 0 to |diffs|
        invariant server.Valid() && Stayed(history, server.history, before.Keys + WrittenBy(diffs))
        invariant WroteAll(before, server.items, diffs[..i])
        invariant forall d | d in diffs[..i] && !d.SeriesOp(Delete) :: WritesFit(reg, before, d)
      {
        ghost var middle := server.items;
        assert diffs[i] in diffs;
        LiveMore(diffs, i);
        if !diffs[i].SeriesOp(Delete) {
          WroteAllUntouched(before, middle, diffs[..i], diffs[i].id);
          WritesFitLocal(reg, before, middle, diffs[i]);
          WroteAllKeys(before, middle, diffs[..i]);
          WrittenByMore(diffs, i);
          ghost var between := server.history;
          ok := WriteForDiff(diffs[i], urls);
          StayedOn(history, between, server.history, before.Keys + WrittenBy(diffs),
                   middle.Keys + Paths(diffs[i].id, AllWritten(diffs[i])), before.Keys + WrittenBy(diffs));
          if !ok {
            return;
          }
        }
        WroteAllMore(before, middle, server.items, diffs, i);
      }
      ok := true;
      assert diffs[..|diffs|] == diffs;
    }

    /** A permission deletion is not sent; the group must be among the listed ones. */
    method PutGroups(diff: SeriesDiff, known: set<string>) returns (ok: bool)
      requires server.Valid() && WellShaped(diff.groups) && known == server.groups
      modifies server`grants
      ensures server.Valid()
      ensures ok <==> GroupsFit(server.Registered(), server.groups, diff)
      ensures ok ==> Granted(old(server.grants), server.grants, diff.id, diff.groups)
    {
      ghost var before := server.grants;
      for j := 0 to |diff.groups|
        invariant server.Valid()
        invariant Granted(before, server.grants, diff.id, diff.groups[..j])
        invariant forall op | op in diff.groups[..j] && op.kind != Delete ::
                    diff.id in server.Registered().open && op.id in server.groups
      {
        var op := diff.groups[j];
        GrantedMore(before, server.grants, diff.id, diff.groups, j);
        assert op in diff.groups;
        if op.kind != Delete {
          if op.id !in known {
            return false;
          }
          ok := server.PutPermissions(diff.id, op.id, op.payload);
          if !ok {
            return;
          }
        }
      }
      ok := true;
      assert diff.groups[..|diff.groups|] == diff.groups;
    }

    method PermissionPhase(diffs: seq<SeriesDiff>) returns (ok: bool)
      requires server.Valid() && WellFormed(diffs)
      modifies server`grants
      ensures server.Valid()
      ensures ok <==> AllGroupsFit(server.Registered(), server.groups, diffs)
      ensures ok ==> GrantedAll(old(server.grants), server.grants, diffs)
    {
      var known := server.groups;
      ghost var reg, before := server.Registered(), server.grants;
      for i := 0 to |diffs|
        invariant server.Valid()
        invariant GrantedAll(before, server.grants, diffs[..i])
        invariant AllGroupsFit(reg, server.groups, diffs[..i])
      {
        ghost var middle := server.grants;
        assert diffs[i] in diffs;
        ok := PutGroups(diffs[i], known);
        if !ok {
          return;
        }
        GrantedAllMore(before, middle, server.grants, diffs, i);
        assert AllGroupsFit(reg, server.groups, diffs[..i + 1]) by {
          assert diffs[..i + 1] == diffs[..i] + [diffs[i]];
        }
      }
      ok := true;
      assert diffs[..|diffs|] == diffs;
    }

    /** The first two phases. */
    method RemoveAndMigrate(diffs: seq<SeriesDiff>) returns (ok: bool)
      requires server.Valid() && WellFormed(diffs)
      modifies server`bodies, server`locked, server`urls, server`owners, server`items, server`grants,
               server`history
      ensures server.Valid()
      ensures ok <==> AllDropsFit(RegistryOf(old(server.bodies), old(server.locked)), old(server.items), diffs)
                      && BareFits(old(server.bodies), old(server.locked), old(server.items) - DroppedBy(diffs), diffs)
      ensures ok ==> server.bodies == PerformAll(old(server.bodies), BareOps(diffs))
      ensures ok ==> server.locked == LockedAfter(old(server.bodies), old(server.locked), server.slow, diffs)
      ensures ok ==> server.items == Outside(old(server.items) - DroppedBy(diffs), Dead(diffs))
      ensures ok ==> server.grants == GrantsOutside(old(server.grants), Dead(diffs))
      ensures Stayed(old(server.history), server.history, old(server.items).Keys)
    {
      ok := DeletePhase(diffs);
      if ok {
        ok := MigrateBareDataSeries(diffs);
      }
    }

    /** The whole push. It is accepted exactly if what the diffs ask for fits what the server has. */
    method Push(diffs: seq<SeriesDiff>) returns (ok: bool)
      requires server.Valid() && WellFormed(diffs)
      modifies server`bodies, server`locked, server`urls, server`owners, server`items, server`grants,
               server`history
      ensures server.Valid()
      ensures ok <==> PushFits(old(server.bodies), old(server.locked), server.slow, old(server.items), server.groups,
                               diffs)
      ensures ok ==> Pushed(old(server.bodies), old(server.items), old(server.grants),
                            server.bodies, server.items, server.grants, diffs)
      ensures StayedInTurn(old(server.history), server.history, old(server.items), diffs)
    {
      ok := RemoveAndMigrate(diffs);
      if !ok {
        return;
      }
      var urls := server.ListSeries();
      ok := WritePhase(diffs, urls);
      if !ok {
        return;
      }
      ok := PermissionPhase(diffs);
    }
  }
}
