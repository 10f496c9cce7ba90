/** The part of the REST API the pusher talks to. Every request answers whether it was accepted;
    a refused request changes nothing. */
module Api {
  import opened Basics
  import opened Definitions

  type Url = nat

  /** One child of one DataSeries, addressed by external ids. */
  datatype Path = Path(series: string, slot: Slot, id: string)

  /** A child as it travels: dimensions name the DataSeries they reference by its url. */
  datatype Payload = Plain(content: Content) | Reference(body: string, url: Url)

  /** What an index of `series` points at. */
  function TargetPath(series: string, t: IndexTarget): Path {
    Path(series, Element(t.kind), t.id)
  }

  predicate Points(items: map<Path, Content>, index: Path, target: Path) {
    index in items && items[index].Index?
        && exists t | t in items[index].targets :: TargetPath(index.series, t) == target
  }

  predicate Refers(items: map<Path, Content>, dimension: Path, series: string) {
    dimension in items && items[dimension].Dimension? && items[dimension].reference == series
  }

  /** A dimension of another DataSeries refers to this one. */
  predicate Referenced(items: map<Path, Content>, series: string) {
    exists p | p in items :: Refers(items, p, series) && p.series != series
  }

  /** The structure elements a new id is compared with: all but the file facts, which the check leaves out. */
  predicate Compared(slot: Slot) {
    slot.Element? && slot != Element(FileFact)
  }

  /** Children sit where they belong; references and index targets exist; apart from file facts, an external id names
      at most one structure element of a DataSeries. */
  ghost predicate Consistent(bodies: map<string, Body>, items: map<Path, Content>) {
    && (forall p | p in items :: p.series in bodies && Typed(p.slot, items[p]))
    && (forall p | p in items && items[p].Dimension? :: items[p].reference in bodies)
    && (forall p, t | p in items && items[p].Index? && t in items[p].targets :: TargetPath(p.series, t) in items)
    && OneKindPerId(items)
  }

  ghost predicate OneKindPerId(items: map<Path, Content>) {
    forall p, q | p in items && q in items && Compared(p.slot) && Compared(q.slot) && p.series == q.series ::
      p.id == q.id ==> p == q
  }

  /** Which DataSeries there are, and which of them may be modified: neither on a deprecated backend nor locked. */
  datatype Registry = Registry(known: set<string>, open: set<string>)

  function RegistryOf(bodies: map<string, Body>, locked: set<string>): Registry {
    Registry(bodies.Keys, set id | id in bodies && !Deprecated(bodies[id].backend) && id !in locked)
  }

  /** A DataSeries is locked while its data move to another backend. That ends at some time of its own; `slow` are
      the ones for which it takes until the next request for them. */
  class Server {
    const slow: set<string>
    var locked: set<string>
    var bodies: map<string, Body>
    var urls: map<string, Url>
    var owners: map<Url, string>
    var items: map<Path, Content>
    var groups: set<string>
    var grants: map<(string, string), set<string>>
    /** Where there were children after each accepted request that concerns them. */
    ghost var history: seq<set<Path>>

    ghost predicate Valid() reads this {
      Consistent(bodies, items) && Books(bodies.Keys, locked, urls, owners, grants)
    }

    ghost function Registered(): Registry
      reads this`bodies, this`locked
    {
      RegistryOf(bodies, locked)
    }

    /** Whether requests that modify a DataSeries or its children are let through. */
    predicate Open(id: string)
      reads this`bodies, this`locked
    {
      id in bodies && !Deprecated(bodies[id].backend) && id !in locked
    }

    /** The child a payload describes, if its reference resolves. */
    function Resolve(payload: Payload): (r: Option<Content>)
      reads this`owners
    {
      match payload
      case Plain(c) => if c.Dimension? then None else Some(c)
      case Reference(body, url) => if url in owners then Some(Dimension(body, owners[url])) else None
    }

    method GetSeries(id: string) returns (ok: bool)
      ensures ok <==> id in bodies
    {
      ok := id in bodies;
    }

    /** All DataSeries with their urls. */
    method ListSeries() returns (found: map<string, Url>)
      ensures found == urls
    {
      found := urls;
    }

    /** Posting a DataSeries gives it a url of its own. A deprecated backend is refused. */
    method PostSeries(id: string, body: Body) returns (ok: bool)
      requires Valid()
      modifies `bodies, `urls, `owners
      ensures Valid() && (ok <==> id !in old(bodies) && !Deprecated(body.backend))
      ensures bodies == if ok then old(bodies)[id := body] else old(bodies)
    {
      ok := id !in bodies && !Deprecated(body.backend);
      if ok {
        var url := FreshUrl(owners.Keys);
        bodies, urls, owners := bodies[id := body], urls[id := url], owners[url := id];
      }
    }

    /** A change of backend, which is possible between the two that are not deprecated, locks the DataSeries. */
    method PatchSeries(id: string, body: Body) returns (ok: bool)
      requires Valid()
      modifies `bodies, `locked
      ensures Valid() && (ok <==> id in old(Registered()).open && !Deprecated(body.backend))
      ensures bodies == if ok then old(bodies)[id := body] else old(bodies)
      ensures locked == if ok && old(bodies)[id].backend != body.backend && id in slow then old(locked) + {id}
                        else old(locked)
    {
      ok := Open(id) && !Deprecated(body.backend);
      if ok {
        if bodies[id].backend != body.backend && id in slow {
          locked := locked + {id};
        }
        bodies := bodies[id := body];
      }
    }

    /** A DataSeries stays as long as a dimension of another one refers to it; whatever it
        still contains goes with it. */
    method DeleteSeries(id: string) returns (ok: bool)
      requires Valid()
      modifies `bodies, `locked, `urls, `owners, `items, `grants, `history
      ensures Valid() && (ok <==> id in old(Registered()).open && !Referenced(old(items), id))
      ensures bodies == if ok then old(bodies) - {id} else old(bodies)
      ensures locked == if ok then old(locked) - {id} else old(locked)
      ensures items == if ok then Outside(old(items), {id}) else old(items)
      ensures grants == if ok then GrantsOutside(old(grants), {id}) else old(grants)
      ensures history == if ok then old(history) + [items.Keys] else old(history)
    {
      ok := Open(id) && !Referenced(items, id);
      if ok {
        var rest, left, granted := bodies - {id}, Outside(items, {id}), GrantsOutside(grants, {id});
        var listed, owned, closed := urls - {id}, owners - {urls[id]}, locked - {id};
        assert Consistent(rest, left) && Books(rest.Keys, closed, listed, owned, granted) by {
          OutsideConsistent(bodies, items, id);
          BooksWithout(bodies.Keys, locked, urls, owners, grants, id);
          assert rest.Keys == bodies.Keys - {id};
        }
        bodies, items, grants, urls, owners, locked := rest, left, granted, listed, owned, closed;
        history := history + [left.Keys];
      }
    }

    /** A structure element stays as long as an index points at it. */
    method DeleteItem(p: Path) returns (ok: bool)
      requires Valid()
      modifies `items, `history
      ensures Valid() && (ok <==> p.series in Registered().open && Deletable(old(items), p))
      ensures items == if ok then old(items) - {p} else old(items)
      ensures history == if ok then old(history) + [items.Keys] else old(history)
    {
      ok := Open(p.series) && p in items && (p.slot.Element? ==> forall q | q in items :: !Points(items, q, p));
      if ok {
        ghost var before := items;
        items := items - {p};
        history := history + [items.Keys];
        assert forall q, t | q in items && items[q].Index? && t in items[q].targets ::
                 TargetPath(q.series, t) == p ==> Points(before, q, p);
      }
    }

    method PostItem(p: Path, payload: Payload) returns (ok: bool)
      requires Valid()
      modifies `items, `history
      ensures Valid()
      ensures ok <==>
              && p.series in Registered().open && Resolve(payload).Some?
              && Postable(old(items), p, Resolve(payload).value)
      ensures items == if ok then old(items)[p := Resolve(payload).value] else old(items)
      ensures history == if ok then old(history) + [items.Keys] else old(history)
    {
      var c := Resolve(payload);
      ok := Open(p.series) && c.Some? && Typed(p.slot, c.value) && p !in items &&
            (p.slot.Element? ==> IdFree(items, p.series, p.id)) &&
            (c.value.Index? ==> c.value.targets != [] && NoDuplicates(c.value.targets) &&
                                forall t | t in c.value.targets :: TargetPath(p.series, t) in items);
      if ok {
        items := items[p := c.value];
        history := history + [items.Keys];
      }
    }

    /** A patch replaces the fields, but neither the reference of a dimension nor the targets of an index. */
    method PatchItem(p: Path, payload: Payload) returns (ok: bool)
      requires Valid()
      modifies `items, `history
      ensures Valid()
      ensures ok <==>
              && p.series in Registered().open && Resolve(payload).Some?
              && Patchable(old(items), p, Resolve(payload).value)
      ensures items == if ok then old(items)[p := Resolve(payload).value] else old(items)
      ensures history == if ok then old(history) + [items.Keys] else old(history)
    {
      var c := Resolve(payload);
      ok := Open(p.series) && c.Some? && Patchable(items, p, c.value);
      if ok {
        items := items[p := c.value];
        history := history + [items.Keys];
      }
    }

    /** Permissions of a group on a DataSeries are replaced as a whole. */
    method PutPermissions(id: string, group: string, permissions: seq<string>) returns (ok: bool)
      requires Valid()
      modifies `grants
      ensures Valid() && (ok <==> id in Registered().open && group in groups)
      ensures grants == if ok then old(grants)[(id, group) := Elements(permissions)] else old(grants)
    {
      ok := Open(id) && group in groups;
      if ok {
        grants := grants[(id, group) := Elements(permissions)];
      }
    }
  }

  /** Every DataSeries has a url of its own. */
  ghost predicate Inverse(urls: map<string, Url>, owners: map<Url, string>) {
    && (forall id | id in urls :: urls[id] in owners && owners[urls[id]] == id)
    && (forall u | u in owners :: owners[u] in urls && urls[owners[u]] == u)
  }

  /** What is stored about DataSeries is about existing ones. */
  ghost predicate Books(known: set<string>, locked: set<string>, urls: map<string, Url>, owners: map<Url, string>,
                        grants: map<(string, string), set<string>>)
  {
    && urls.Keys == known && locked <= known && Inverse(urls, owners)
    && (forall k | k in grants :: k.0 in known)
  }

  lemma BooksWithout(known: set<string>, locked: set<string>, urls: map<string, Url>, owners: map<Url, string>,
                     grants: map<(string, string), set<string>>, id: string)
    requires Books(known, locked, urls, owners, grants) && id in known
    ensures Books(known - {id}, locked - {id}, urls - {id}, owners - {urls[id]}, GrantsOutside(grants, {id}))
  {
    InverseWithout(urls, owners, id);
  }

  lemma InverseWithout(urls: map<string, Url>, owners: map<Url, string>, id: string)
    requires Inverse(urls, owners) && id in urls
    ensures Inverse(urls - {id}, owners - {urls[id]})
  {
  }

  predicate Deletable(items: map<Path, Content>, p: Path) {
    p in items && (p.slot.Element? ==> forall q | q in items :: !Points(items, q, p))
  }

  /** The check for new structure elements finds the id unused. */
  predicate IdFree(items: map<Path, Content>, series: string, id: string) {
    forall q | q in items && Compared(q.slot) && q.series == series :: q.id != id
  }

  ghost predicate Postable(items: map<Path, Content>, p: Path, c: Content) {
    && Typed(p.slot, c) && p !in items
    && (p.slot.Element? ==> IdFree(items, p.series, p.id))
    && (c.Index? ==> c.targets != [] && NoDuplicates(c.targets))
    && (c.Index? ==> forall t | t in c.targets :: TargetPath(p.series, t) in items)
  }

  predicate NoDuplicates(targets: seq<IndexTarget>) {
    forall i, j | 0 <= i < j < |targets| :: targets[i] != targets[j]
  }

  predicate Patchable(items: map<Path, Content>, p: Path, c: Content) {
    && p in items && Typed(p.slot, c)
    && (c.Dimension? && items[p].Dimension? ==> c.reference == items[p].reference)
    && (c.Index? && items[p].Index? ==> c.targets == items[p].targets)
  }

  /** The rules in terms of what is stored. */
  lemma Rules(bodies: map<string, Body>, locked: set<string>, items: map<Path, Content>, id: string, p: Path,
              c: Content)
    ensures id in RegistryOf(bodies, locked).open <==>
            id in bodies && (bodies[id].backend == FlatHistory || bodies[id].backend == NoHistory) && id !in locked
    ensures Referenced(items, id) <==>
            exists q :: q in items && items[q].Dimension? && items[q].reference == id && q.series != id
    ensures Deletable(items, p) <==>
            p in items && forall q, t | q in items && items[q].Index? && t in items[q].targets ::
              !(q.series == p.series && p.slot == Element(t.kind) && t.id == p.id)
    ensures Postable(items, p, c) <==>
            && Typed(p.slot, c) && p !in items
            && (p.slot.Element? ==> forall q | q in items && q.series == p.series && q.id == p.id ::
                  q.slot == IndexSlot || q.slot == ConsumerSlot || q.slot == Element(FileFact))
            && (c.Index? ==> c.targets != [])
            && (c.Index? ==> forall i, j | 0 <= i < j < |c.targets| :: c.targets[i] != c.targets[j])
            && (c.Index? ==> forall t | t in c.targets :: Path(p.series, Element(t.kind), t.id) in items)
    ensures Patchable(items, p, c) <==>
            && p in items && Typed(p.slot, c)
            && (items[p].Dimension? && c.Dimension? ==> c.reference == items[p].reference)
            && (items[p].Index? && c.Index? ==> c.targets == items[p].targets)
  {
    if Deletable(items, p) {
      forall q, t | q in items && items[q].Index? && t in items[q].targets
        ensures !(q.series == p.series && p.slot == Element(t.kind) && t.id == p.id)
      {
        assert TargetPath(q.series, t) == p ==> Points(items, q, p);
      }
    }
    if p in items && !Deletable(items, p) {
      var q :| q in items && Points(items, q, p);
      var t :| t in items[q].targets && TargetPath(q.series, t) == p;
    }
    assert Referenced(items, id) ==> exists q :: q in items && Refers(items, q, id) && q.series != id;
    forall q | q in items && items[q].Dimension? && items[q].reference == id && q.series != id
      ensures Referenced(items, id)
    {
      assert Refers(items, q, id);
    }
  }

  function Outside(items: map<Path, Content>, dead: set<string>): map<Path, Content> {
    map p | p in items && p.series !in dead :: items[p]
  }

  lemma OutsideConsistent(bodies: map<string, Body>, items: map<Path, Content>, id: string)
    requires Consistent(bodies, items) && !Referenced(items, id)
    ensures Consistent(bodies - {id}, Outside(items, {id}))
  {
  }

  function GrantsOutside(grants: map<(string, string), set<string>>, dead: set<string>)
    : map<(string, string), set<string>>
  {
    map k | k in grants && k.0 !in dead :: grants[k]
  }

  /** A url not in use. */
  method FreshUrl(used: set<Url>) returns (url: Url)
    ensures url !in used
  {
    url := 0;
    var rest := used;
    while rest != {}
      invariant rest <= used
      invariant forall u | u in used && u !in rest :: u < url
    {
      var u :| u in rest;
      rest := rest - {u};
      if u >= url {
        url := u + 1;
      }
    }
  }
}
