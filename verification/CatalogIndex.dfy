/** What the catalog's index must hold for given objects (internal/catalog/catalog.go): tenant slices of the
    configuration, the name index, the child and parent edges, and how relinking a tenant restores the edges. */
module CatalogIndex {
  import opened Basics
  import opened CatalogModel

  // ---- flat configuration maps ------------------------------------------------------------------

  /** A tenant's part of a map keyed tenant/name. */
  function Slice<V>(flat: map<string, V>, tenant: string): map<string, V> {
    var p := tenant + "/";
    map n | n in (set k | k in flat && HasPrefix(k, p) :: k[|p|..]) && p + n in flat :: flat[p + n]
  }

  lemma SliceIs<V>(flat: map<string, V>, tenant: string, n: string)
    ensures n in Slice(flat, tenant) <==> tenant + "/" + n in flat
    ensures n in Slice(flat, tenant) ==> Slice(flat, tenant)[n] == flat[tenant + "/" + n]
  {
    var p := tenant + "/";
    assert (p + n)[..|p|] == p && (p + n)[|p|..] == n;
  }

  function WithoutTenant<V>(flat: map<string, V>, tenant: string): map<string, V> {
    map k | k in flat && !HasPrefix(k, tenant + "/") :: flat[k]
  }

  /** Name and value pairs as the store lists them; a later pair wins. */
  function AsMap<V>(items: seq<(string, V)>): map<string, V> {
    if items == [] then map[] else AsMap(items[..|items| - 1])[items[|items| - 1].0 := items[|items| - 1].1]
  }

  lemma SliceWithoutTenant<V>(flat: map<string, V>, tenant: string)
    requires SlashFree(tenant)
    ensures Slice(WithoutTenant(flat, tenant), tenant) == map[]
    ensures forall t :: SlashFree(t) && t != tenant ==> Slice(WithoutTenant(flat, tenant), t) == Slice(flat, t)
  {
    var rest := WithoutTenant(flat, tenant);
    forall n ensures n !in Slice(rest, tenant) {
      SliceIs(rest, tenant, n);
      PrefixIsTenant(tenant, tenant, n);
    }
    forall t, n | SlashFree(t) && t != tenant
      ensures n in Slice(rest, t) <==> n in Slice(flat, t)
      ensures n in Slice(rest, t) ==> Slice(rest, t)[n] == Slice(flat, t)[n]
    {
      SliceIs(rest, t, n);
      SliceIs(flat, t, n);
      PrefixIsTenant(tenant, t, n);
    }
  }

  lemma SliceAfterPut<V>(flat: map<string, V>, tenant: string, name: string, v: V)
    requires SlashFree(tenant)
    ensures Slice(flat[tenant + "/" + name := v], tenant) == Slice(flat, tenant)[name := v]
    ensures forall t :: SlashFree(t) && t != tenant ==> Slice(flat[tenant + "/" + name := v], t) == Slice(flat, t)
  {
    var put := flat[tenant + "/" + name := v];
    forall t, n | SlashFree(t)
      ensures n in Slice(put, t) <==> n in Slice(flat, t) || (t == tenant && n == name)
      ensures n in Slice(put, t) ==> Slice(put, t)[n] == if t == tenant && n == name then v else Slice(flat, t)[n]
    {
      SliceIs(put, t, n);
      SliceIs(flat, t, n);
      if t + "/" + n == tenant + "/" + name { FirstSlashSplits(t, n, tenant, name); }
    }
  }

  /** Stores what the store lists for a tenant that has nothing here yet. */
  method PutAll<V>(flat: map<string, V>, tenant: string, items: seq<(string, V)>) returns (filled: map<string, V>)
    requires SlashFree(tenant) && Slice(flat, tenant) == map[]
    ensures Slice(filled, tenant) == AsMap(items)
    ensures forall t :: SlashFree(t) && t != tenant ==> Slice(filled, t) == Slice(flat, t)
  {
    hide *;
    filled := flat;
    AsMapOfPrefix(items, 0);
    for i := 0 to |items|
      invariant Slice(filled, tenant) == AsMap(items[..i])
      invariant forall t :: SlashFree(t) && t != tenant ==> Slice(filled, t) == Slice(flat, t)
    {
      SliceAfterPut(filled, tenant, items[i].0, items[i].1);
      AsMapOfPrefix(items, i + 1);
      filled := filled[tenant + "/" + items[i].0 := items[i].1];
    }
    assert items[..|items|] == items;
  }

  lemma AsMapOfPrefix<V>(items: seq<(string, V)>, i: nat)
    requires i <= |items|
    ensures AsMap(items[..i]) == if i == 0 then map[] else AsMap(items[..i - 1])[items[i - 1].0 := items[i - 1].1]
  {
    if i > 0 { assert items[..i][..i - 1] == items[..i - 1]; }
  }

  // ---- what the index should be -----------------------------------------------------------------

  type Recs = map<string, Rec>

  predicate OnHost(o: Object, hostId: string) {
    o.kind == Service && o.hostId != "" && o.hostId == hostId
  }

  ghost function ServicesOf(recs: Recs, hostId: string): set<string> {
    set id | id in recs && OnHost(recs[id].obj, hostId)
  }

  function At(m: map<string, seq<string>>, id: string): seq<string> { if id in m then m[id] else [] }

  /** The hosts a host names as parents, as far as they exist, in the order it names them. */
  function ParentIds(byName: map<string, string>, tenant: string, names: seq<string>): seq<string> {
    if names == [] then []
    else
      var key := NameKey(tenant, Host, "", names[|names| - 1]);
      ParentIds(byName, tenant, names[..|names| - 1]) + if key in byName then [byName[key]] else []
  }

  function ParentsOf(byName: map<string, string>, r: Rec): seq<string> {
    if r.obj.kind == Host then ParentIds(byName, r.obj.tenant, Items(r.effective.parents)) else []
  }

  ghost predicate OwnIds(objs: map<string, Object>) {
    forall id :: id in objs ==> objs[id].id == id && SlashFree(objs[id].tenant) && SlashFree(objs[id].hostId)
  }

  ghost predicate UniqueKeys(objs: map<string, Object>) {
    forall a, b :: a in objs && b in objs && a != b ==> KeyOf(objs[a]) != KeyOf(objs[b])
  }

  ghost predicate HostsPresent(objs: map<string, Object>) {
    forall id :: id in objs && objs[id].kind == Service && objs[id].hostId != "" ==>
      && objs[id].hostId in objs
      && objs[objs[id].hostId].kind == Host
      && objs[objs[id].hostId].tenant == objs[id].tenant
  }

  /** What the store guarantees of a set of objects, and what the catalog needs on top: hosts of services exist. */
  ghost predicate WellFormed(objs: map<string, Object>) {
    OwnIds(objs) && UniqueKeys(objs) && HostsPresent(objs)
  }

  lemma PartOfWellFormed(objs: map<string, Object>, part: map<string, Object>)
    requires WellFormed(objs) && HostsPresent(part)
    requires forall id :: id in part ==> id in objs && part[id] == objs[id]
    ensures WellFormed(part)
  {
    hide KeyOf, HostsPresent, SlashFree;
  }

  /** Unique by parts means unique by key: the joined key loses nothing. */
  lemma UniquePartsGiveUniqueKeys(a: Object, b: Object)
    requires SlashFree(a.tenant) && SlashFree(b.tenant) && SlashFree(a.hostId) && SlashFree(b.hostId)
    ensures KeyOf(a) == KeyOf(b) <==>
      a.tenant == b.tenant && a.kind == b.kind && a.hostId == b.hostId && a.name == b.name
  {
    if KeyOf(a) == KeyOf(b) {
      NameKeyIsInjective(a.tenant, a.kind, a.hostId, a.name, b.tenant, b.kind, b.hostId, b.name);
    }
  }

  ghost function ObjectsOf(recs: Recs): map<string, Object> {
    map id | id in recs :: recs[id].obj
  }

  ghost predicate NamesOk(recs: Recs, byName: map<string, string>) {
    && (forall id :: id in recs ==> KeyOf(recs[id].obj) in byName && byName[KeyOf(recs[id].obj)] == id)
    && (forall k :: k in byName ==> byName[k] in recs && KeyOf(recs[byName[k]].obj) == k)
  }

  ghost predicate NoStrays(recs: Recs, children: map<string, seq<string>>, parents: map<string, seq<string>>) {
    children.Keys <= recs.Keys && parents.Keys <= recs.Keys
  }

  /** The edges that start at `id`, children in any order. */
  ghost predicate EdgesOk(recs: Recs, byName: map<string, string>,
                          children: map<string, seq<string>>, parents: map<string, seq<string>>, id: string)
    requires id in recs
  {
    && multiset(At(children, id)) == multiset(ServicesOf(recs, id))
    && At(parents, id) == ParentsOf(byName, recs[id])
  }

  ghost function TenantIds(recs: Recs, tenant: string): set<string> {
    set id | id in recs && recs[id].obj.tenant == tenant
  }

  /** Every service names a host of its own tenant that is there. */
  ghost predicate Hosted(recs: Recs) {
    forall id :: id in recs && recs[id].obj.kind == Service && recs[id].obj.hostId != "" ==>
      && recs[id].obj.hostId in recs
      && recs[recs[id].obj.hostId].obj.kind == Host
      && recs[recs[id].obj.hostId].obj.tenant == recs[id].obj.tenant
  }

  // ---- relinking, on values ---------------------------------------------------------------------

  type Edges = map<string, seq<string>>

  /** The services of the tenant that name `h` as their host, whether or not `h` is there. */
  ghost function Hanging(recs: Recs, tenant: string, h: string): set<string> {
    set id | id in recs && recs[id].obj.tenant == tenant && OnHost(recs[id].obj, h)
  }

  function Emptied(edges: Edges, ids: set<string>): Edges { edges - ids }

  predicate Mine(recs: Recs, tenant: string, h: string) { h in recs && recs[h].obj.tenant == tenant }

  /** The children of `h` once the tenant's entries in `done` have been visited. Only lists kept under an entry
      of the tenant were emptied first; a list kept under anything else grows. */
  ghost predicate BagAt(recs: Recs, tenant: string, done: set<string>, children0: Edges, children: Edges, h: string) {
    multiset(At(children, h)) ==
      (if Mine(recs, tenant, h) then multiset{} else multiset(At(children0, h)))
      + multiset(Hanging(recs, tenant, h) * done)
  }

  ghost predicate ParentsAt(recs: Recs, byName: map<string, string>, tenant: string, done: set<string>,
                            parents0: Edges, parents: Edges, h: string)
  {
    At(parents, h) ==
      if Mine(recs, tenant, h) then (if h in done then ParentsOf(byName, recs[h]) else []) else At(parents0, h)
  }

  ghost predicate LinkedAt(recs: Recs, byName: map<string, string>, tenant: string, done: set<string>,
                           children0: Edges, parents0: Edges, children: Edges, parents: Edges, h: string)
  {
    BagAt(recs, tenant, done, children0, children, h) && ParentsAt(recs, byName, tenant, done, parents0, parents, h)
  }

  ghost predicate PartlyLinked(recs: Recs, byName: map<string, string>, tenant: string, done: set<string>,
                               children0: Edges, parents0: Edges, children: Edges, parents: Edges)
  {
    forall h :: LinkedAt(recs, byName, tenant, done, children0, parents0, children, parents, h)
  }

  /** What relinking a tenant does to the edge lists. */
  ghost predicate Relinked(recs: Recs, byName: map<string, string>, tenant: string,
                           children0: Edges, parents0: Edges, children: Edges, parents: Edges)
  {
    && PartlyLinked(recs, byName, tenant, TenantIds(recs, tenant), children0, parents0, children, parents)
    && (forall h :: h in children ==> h in children0 || Hanging(recs, tenant, h) != {})
    && (forall h :: h in parents ==> h in parents0 || h in recs)
  }

  function WithChild(children: Edges, o: Object): Edges {
    if o.kind == Service && o.hostId != "" then children[o.hostId := At(children, o.hostId) + [o.id]] else children
  }

  function WithParents(parents: Edges, id: string, ids: seq<string>): Edges {
    if ids == [] then parents else parents[id := At(parents, id) + ids]
  }

  lemma AppendToBag(a: seq<string>, rest: multiset<string>, s: set<string>, id: string)
    requires multiset(a) == rest + multiset(s) && id !in s
    ensures multiset(a + [id]) == rest + multiset(s + {id})
  {
    assert multiset(a + [id]) == multiset(a) + multiset{id};
    assert multiset(s + {id}) == multiset(s) + multiset{id};
  }

  lemma VisitedServices(recs: Recs, tenant: string, done: set<string>, id: string, h: string)
    requires id in recs && recs[id].obj.tenant == tenant && id !in done
    ensures Hanging(recs, tenant, h) * (done + {id}) ==
      Hanging(recs, tenant, h) * done + if OnHost(recs[id].obj, h) then {id} else {}
  {}

  lemma AtAfterVisit(o: Object, id: string, children: Edges, parents: Edges, ids: seq<string>, h: string)
    ensures At(WithChild(children, o), h) == At(children, h) + if OnHost(o, h) then [o.id] else []
    ensures At(WithParents(parents, id, ids), h) == At(parents, h) + if h == id then ids else []
  {}

  lemma BagAfterVisit(recs: Recs, tenant: string, done: set<string>, id: string,
                      children0: Edges, children: Edges, h: string)
    requires id in recs && recs[id].obj.tenant == tenant && id !in done && recs[id].obj.id == id
    requires BagAt(recs, tenant, done, children0, children, h)
    ensures BagAt(recs, tenant, done + {id}, children0, WithChild(children, recs[id].obj), h)
  {
    hide Hanging, WithChild, WithParents, At, OnHost, Mine;
    AtAfterVisit(recs[id].obj, id, children, children, [], h);
    VisitedServices(recs, tenant, done, id, h);
    var s := Hanging(recs, tenant, h) * done;
    var rest := if Mine(recs, tenant, h) then multiset{} else multiset(At(children0, h));
    if OnHost(recs[id].obj, h) {
      AppendToBag(At(children, h), rest, s, id);
    } else {
      assert At(children, h) + [] == At(children, h) && s + {} == s;
    }
  }

  lemma ParentsAfterVisit(recs: Recs, byName: map<string, string>, tenant: string, done: set<string>, id: string,
                          parents0: Edges, parents: Edges, h: string)
    requires id in recs && recs[id].obj.tenant == tenant && id !in done
    requires ParentsAt(recs, byName, tenant, done, parents0, parents, h)
    ensures ParentsAt(recs, byName, tenant, done + {id}, parents0,
                      WithParents(parents, id, ParentsOf(byName, recs[id])), h)
  {
    hide ParentsOf, WithParents, At;
    AtAfterVisit(recs[id].obj, id, parents, parents, ParentsOf(byName, recs[id]), h);
  }

  lemma VisitOne(recs: Recs, byName: map<string, string>, tenant: string, done: set<string>, id: string,
                 children0: Edges, parents0: Edges, children: Edges, parents: Edges)
    requires id in recs && recs[id].obj.tenant == tenant && id !in done && recs[id].obj.id == id
    requires PartlyLinked(recs, byName, tenant, done, children0, parents0, children, parents)
    ensures PartlyLinked(recs, byName, tenant, done + {id}, children0, parents0,
                         WithChild(children, recs[id].obj), WithParents(parents, id, ParentsOf(byName, recs[id])))
  {
    hide ParentsOf, Hanging, WithChild, WithParents, At, BagAt, ParentsAt;
    var ids := ParentsOf(byName, recs[id]);
    forall h
      ensures LinkedAt(recs, byName, tenant, done + {id}, children0, parents0,
                       WithChild(children, recs[id].obj), WithParents(parents, id, ids), h)
    {
      assert LinkedAt(recs, byName, tenant, done, children0, parents0, children, parents, h);
      BagAfterVisit(recs, tenant, done, id, children0, children, h);
      ParentsAfterVisit(recs, byName, tenant, done, id, parents0, parents, h);
    }
  }

  lemma NothingVisited(recs: Recs, byName: map<string, string>, tenant: string, children0: Edges, parents0: Edges)
    ensures var ids := TenantIds(recs, tenant);
      PartlyLinked(recs, byName, tenant, {}, children0, parents0, Emptied(children0, ids), Emptied(parents0, ids))
  {
    hide ParentsOf, Hanging, TenantIds, Emptied, LinkedAt;
    var ids := TenantIds(recs, tenant);
    forall h
      ensures LinkedAt(recs, byName, tenant, {}, children0, parents0,
                       Emptied(children0, ids), Emptied(parents0, ids), h)
    {
      NothingVisitedAt(recs, byName, tenant, children0, parents0, h);
    }
  }

  lemma NothingVisitedAt(recs: Recs, byName: map<string, string>, tenant: string, children0: Edges, parents0: Edges,
                         h: string)
    ensures var ids := TenantIds(recs, tenant);
      LinkedAt(recs, byName, tenant, {}, children0, parents0, Emptied(children0, ids), Emptied(parents0, ids), h)
  {
    hide ParentsOf, Hanging;
    assert Hanging(recs, tenant, h) * {} == {};
  }

  lemma HangingIsServices(recs: Recs, tenant: string, h: string)
    requires Hosted(recs)
    ensures Hanging(recs, tenant, h) ==
      if h in recs && recs[h].obj.tenant == tenant then ServicesOf(recs, h) else {}
    ensures Hanging(recs, tenant, h) * TenantIds(recs, tenant) == Hanging(recs, tenant, h)
  {}

  /** When hosts are there, relinking gives the tenant exactly its edges and leaves every other list alone. */
  lemma RelinkedIsExact(recs: Recs, byName: map<string, string>, tenant: string,
                        children0: Edges, parents0: Edges, children: Edges, parents: Edges)
    requires Hosted(recs) && NoStrays(recs, children0, parents0)
    requires Relinked(recs, byName, tenant, children0, parents0, children, parents)
    ensures forall h :: h in recs && recs[h].obj.tenant == tenant ==> EdgesOk(recs, byName, children, parents, h)
    ensures forall h :: !(h in recs && recs[h].obj.tenant == tenant) ==>
      multiset(At(children, h)) == multiset(At(children0, h)) && At(parents, h) == At(parents0, h)
    ensures NoStrays(recs, children, parents)
  {
    hide ParentsOf, Hanging, ServicesOf, TenantIds, Hosted, At;
    forall h
      ensures h in recs && recs[h].obj.tenant == tenant ==> EdgesOk(recs, byName, children, parents, h)
      ensures !(h in recs && recs[h].obj.tenant == tenant) ==>
        multiset(At(children, h)) == multiset(At(children0, h)) && At(parents, h) == At(parents0, h)
      ensures h in children ==> h in recs
    {
      assert LinkedAt(recs, byName, tenant, TenantIds(recs, tenant), children0, parents0, children, parents, h);
      HangingIsServices(recs, tenant, h);
      InTenant(recs, tenant, h);
    }
  }

  lemma InTenant(recs: Recs, tenant: string, id: string)
    ensures id in TenantIds(recs, tenant) <==> id in recs && recs[id].obj.tenant == tenant
  {}

  /** Relinking once more changes no list, up to order, exactly when every hosted service of the tenant names an
      entry of the tenant; otherwise the list kept under the missing host grows every time. */
  lemma RelinkingIsIdempotentIff(recs: Recs, byName: map<string, string>, tenant: string,
                                 children0: Edges, parents0: Edges, children: Edges, parents: Edges,
                                 children': Edges, parents': Edges)
    requires Relinked(recs, byName, tenant, children0, parents0, children, parents)
    requires Relinked(recs, byName, tenant, children, parents, children', parents')
    ensures
      (forall h ::
         multiset(At(children', h)) == multiset(At(children, h)) && At(parents', h) == At(parents, h)) <==>
      forall id | id in recs && recs[id].obj.tenant == tenant ::
        recs[id].obj.kind == Service && recs[id].obj.hostId != "" ==> recs[id].obj.hostId in TenantIds(recs, tenant)
  {
    hide ParentsOf, At;
    forall h
      ensures At(parents', h) == At(parents, h)
      ensures multiset(At(children', h)) == multiset(At(children, h)) <==>
        h in TenantIds(recs, tenant) || Hanging(recs, tenant, h) == {}
    {
      RelinkAgainAt(recs, byName, tenant, children0, parents0, children, parents, children', parents', h);
    }
    forall id | id in recs && recs[id].obj.tenant == tenant && recs[id].obj.kind == Service && recs[id].obj.hostId != ""
      ensures id in Hanging(recs, tenant, recs[id].obj.hostId)
    {}
    forall h, id | id in Hanging(recs, tenant, h) ensures id in recs && recs[id].obj.hostId == h {}
  }

  /** Each relinking adds a service whose host is not there once more to the list kept under that host. */
  lemma MissingHostAccumulates(recs: Recs, byName: map<string, string>, tenant: string, children: Edges, parents: Edges,
                               children': Edges, parents': Edges, id: string)
    requires Relinked(recs, byName, tenant, children, parents, children', parents')
    requires id in recs && recs[id].obj.tenant == tenant && recs[id].obj.kind == Service && recs[id].obj.hostId != ""
    requires recs[id].obj.hostId !in recs
    ensures var h := recs[id].obj.hostId; multiset(At(children', h))[id] == multiset(At(children, h))[id] + 1
  {
    hide ParentsOf, At;
    var h, ids := recs[id].obj.hostId, TenantIds(recs, tenant);
    assert LinkedAt(recs, byName, tenant, ids, children, parents, children', parents', h);
    assert id in Hanging(recs, tenant, h) * ids;
    assert multiset(Hanging(recs, tenant, h) * ids)[id] == 1;
  }

  lemma RelinkAgainAt(recs: Recs, byName: map<string, string>, tenant: string,
                      children0: Edges, parents0: Edges, children: Edges, parents: Edges,
                      children': Edges, parents': Edges, h: string)
    requires Relinked(recs, byName, tenant, children0, parents0, children, parents)
    requires Relinked(recs, byName, tenant, children, parents, children', parents')
    ensures At(parents', h) == At(parents, h)
    ensures multiset(At(children', h)) == multiset(At(children, h)) <==>
      h in TenantIds(recs, tenant) || Hanging(recs, tenant, h) == {}
  {
    hide ParentsOf, At;
    var ids := TenantIds(recs, tenant);
    assert LinkedAt(recs, byName, tenant, ids, children0, parents0, children, parents, h);
    assert LinkedAt(recs, byName, tenant, ids, children, parents, children', parents', h);
    assert Hanging(recs, tenant, h) * ids == Hanging(recs, tenant, h);
    if h !in ids && Hanging(recs, tenant, h) != {} {
      var id :| id in Hanging(recs, tenant, h);
      assert multiset(At(children', h))[id] == multiset(At(children, h))[id] + multiset(Hanging(recs, tenant, h))[id];
      assert multiset(Hanging(recs, tenant, h))[id] == 1;
    }
  }

  // ---- other tenants are untouched --------------------------------------------------------------

  ghost predicate SameElsewhere(recs: Recs, recs': Recs, tenant: string) {
    && (forall id :: id in recs && recs[id].obj.tenant != tenant ==> id in recs' && recs'[id] == recs[id])
    && (forall id :: id in recs' && recs'[id].obj.tenant != tenant ==> id in recs && recs[id] == recs'[id])
  }

  ghost predicate Tidy(recs: Recs, byName: map<string, string>) {
    WellFormed(ObjectsOf(recs)) && NamesOk(recs, byName)
  }

  lemma ServicesElsewhere(recs: Recs, recs': Recs, tenant: string, h: string)
    requires Hosted(recs) && Hosted(recs') && SameElsewhere(recs, recs', tenant)
    requires h in recs && recs[h].obj.tenant != tenant
    ensures ServicesOf(recs, h) == ServicesOf(recs', h)
  {}

  lemma TenantOfKey(o: Object, tenant: string, name: string)
    requires SlashFree(o.tenant) && SlashFree(o.hostId) && SlashFree(tenant)
    requires KeyOf(o) == NameKey(tenant, Host, "", name)
    ensures o.tenant == tenant
  {
    NameKeyIsInjective(o.tenant, o.kind, o.hostId, o.name, tenant, Host, "", name);
  }

  lemma LookupIsKept(recs: Recs, byName: map<string, string>, recs': Recs, byName': map<string, string>,
                     tenant: string, other: string, name: string)
    requires Tidy(recs, byName) && NamesOk(recs', byName') && SameElsewhere(recs, recs', tenant)
    requires other != tenant && SlashFree(other)
    ensures var key := NameKey(other, Host, "", name);
      key in byName ==> key in byName' && byName'[key] == byName[key]
  {
    hide NameKey;
    var key := NameKey(other, Host, "", name);
    if key in byName {
      var id := byName[key];
      assert ObjectsOf(recs)[id] == recs[id].obj;
      TenantOfKey(recs[id].obj, other, name);
    }
  }

  lemma {:induction false} ParentsElsewhere(recs: Recs, byName: map<string, string>, recs': Recs,
                                            byName': map<string, string>,
                                            tenant: string, other: string, names: seq<string>)
    requires Tidy(recs, byName) && Tidy(recs', byName') && SameElsewhere(recs, recs', tenant)
    requires other != tenant && SlashFree(other)
    ensures ParentIds(byName, other, names) == ParentIds(byName', other, names)
  {
    hide Tidy, SameElsewhere, NameKey, SlashFree;
    if names != [] {
      var last := names[|names| - 1];
      ParentsElsewhere(recs, byName, recs', byName', tenant, other, names[..|names| - 1]);
      assert NamesOk(recs, byName) && NamesOk(recs', byName') by { FromTidy(recs, byName); FromTidy(recs', byName'); }
      LookupIsKept(recs, byName, recs', byName', tenant, other, last);
      assert SameElsewhere(recs', recs, tenant) by { SameBack(recs, recs', tenant); }
      LookupIsKept(recs', byName', recs, byName, tenant, other, last);
    }
  }

  lemma FromTidy(recs: Recs, byName: map<string, string>)
    requires Tidy(recs, byName)
    ensures NamesOk(recs, byName) && Hosted(recs)
    ensures forall id :: id in recs ==>
      recs[id].obj.id == id && SlashFree(recs[id].obj.tenant) && SlashFree(recs[id].obj.hostId)
  {
    assert forall id :: id in recs ==> ObjectsOf(recs)[id] == recs[id].obj;
  }

  lemma SameBack(recs: Recs, recs': Recs, tenant: string)
    requires SameElsewhere(recs, recs', tenant)
    ensures SameElsewhere(recs', recs, tenant)
  {}

  lemma EdgesElsewhere(recs: Recs, byName: map<string, string>, children: Edges, parents: Edges,
                       recs': Recs, byName': map<string, string>, children': Edges, parents': Edges,
                       tenant: string, id: string)
    requires Tidy(recs, byName) && Tidy(recs', byName') && SameElsewhere(recs, recs', tenant)
    requires id in recs && recs[id].obj.tenant != tenant && id in recs' && recs'[id] == recs[id]
    requires EdgesOk(recs, byName, children, parents, id)
    requires multiset(At(children', id)) == multiset(At(children, id)) && At(parents', id) == At(parents, id)
    ensures EdgesOk(recs', byName', children', parents', id)
  {
    hide Tidy, SameElsewhere, ServicesOf, ParentIds, SlashFree, Hosted, At, NamesOk;
    FromTidy(recs, byName);
    FromTidy(recs', byName');
    ServicesElsewhere(recs, recs', tenant, id);
    ParentsElsewhere(recs, byName, recs', byName', tenant, recs[id].obj.tenant, Items(recs[id].effective.parents));
  }

  ghost predicate AllEdgesOk(recs: Recs, byName: map<string, string>, children: Edges, parents: Edges) {
    && NoStrays(recs, children, parents)
    && (forall id :: id in recs ==> EdgesOk(recs, byName, children, parents, id))
  }

  /** Patching one tenant and relinking it makes every edge right again, in all tenants. `children0` and `parents0`
      are the lists just before relinking: those of other tenants still the old ones. */
  lemma RelinkRestores(recs: Recs, byName: map<string, string>, children: Edges, parents: Edges,
                       recs': Recs, byName': map<string, string>, children0: Edges, parents0: Edges,
                       children': Edges, parents': Edges, tenant: string)
    requires Tidy(recs, byName) && Tidy(recs', byName') && SameElsewhere(recs, recs', tenant)
    requires AllEdgesOk(recs, byName, children, parents)
    requires NoStrays(recs', children0, parents0)
    requires forall id :: id in recs && recs[id].obj.tenant != tenant ==>
      At(children0, id) == At(children, id) && At(parents0, id) == At(parents, id)
    requires Relinked(recs', byName', tenant, children0, parents0, children', parents')
    ensures AllEdgesOk(recs', byName', children', parents')
  {
    hide Tidy, Relinked, EdgesOk, NoStrays, At, SlashFree, Hosted, NamesOk;
    FromTidy(recs', byName');
    RelinkedIsExact(recs', byName', tenant, children0, parents0, children', parents');
    forall id | id in recs' ensures EdgesOk(recs', byName', children', parents', id) {
      if recs'[id].obj.tenant != tenant {
        EdgesElsewhere(recs, byName, children, parents, recs', byName', children', parents', tenant, id);
      }
    }
  }

  // ---- the name index under patches -------------------------------------------------------------

  lemma NamesAfterDrop(recs: Recs, byName: map<string, string>, id: string)
    requires NamesOk(recs, byName) && id in recs
    ensures NamesOk(recs - {id}, byName - {KeyOf(recs[id].obj)})
  {
    hide KeyOf;
  }

  lemma NamesAfterAdd(recs: Recs, byName: map<string, string>, r: Rec)
    requires NamesOk(recs, byName) && r.obj.id !in recs
    requires forall id :: id in recs ==> KeyOf(recs[id].obj) != KeyOf(r.obj)
    ensures NamesOk(recs[r.obj.id := r], byName[KeyOf(r.obj) := r.obj.id])
  {
    hide KeyOf;
  }

  function WithoutTenantRecs(recs: Recs, tenant: string): Recs {
    map id | id in recs && recs[id].obj.tenant != tenant :: recs[id]
  }

  lemma NamesAfterTenantDrop(recs: Recs, byName: map<string, string>, tenant: string)
    requires NamesOk(recs, byName) && SlashFree(tenant)
    requires forall id :: id in recs ==> SlashFree(recs[id].obj.tenant)
    ensures NamesOk(WithoutTenantRecs(recs, tenant), WithoutTenant(byName, tenant))
  {
    hide KeyOf, HasPrefix, SlashFree;
    forall id | id in recs ensures HasPrefix(KeyOf(recs[id].obj), tenant + "/") <==> recs[id].obj.tenant == tenant {
      KeyStartsWithTenant(recs[id].obj, tenant);
    }
  }

  lemma KeyStartsWithTenant(o: Object, tenant: string)
    requires SlashFree(tenant) && SlashFree(o.tenant)
    ensures HasPrefix(KeyOf(o), tenant + "/") <==> o.tenant == tenant
  {
    hide HasPrefix, SlashFree;
    var rest := KindText(o.kind) + "/" + o.hostId + "/" + o.name;
    assert KeyOf(o) == o.tenant + "/" + rest;
    PrefixIsTenant(tenant, o.tenant, rest);
  }
}
