/** The in-memory object catalog (internal/catalog/catalog.go): entries, the name index, and the host and
    parent edges, patched in place by single-object updates.

    `Coherent` says what a rebuild from the current objects would produce; every operation restores it. */
module Catalog {
  import opened Basics
  import opened CatalogModel
  import opened CatalogIndex
  import opened CatalogPatches

  class Catalog {
    var entries: Entries
    var byName: map<string, string>
    var children: Edges
    var parents: Edges
    var templates: map<string, Spec>
    var commands: map<string, Command>
    var periods: map<string, Period>

    constructor ()
      ensures entries == map[] && byName == map[] && children == map[] && parents == map[]
      ensures templates == map[] && commands == map[] && periods == map[]
    {
      entries, byName, children, parents := map[], map[], map[], map[];
      templates, commands, periods := map[], map[], map[];
    }

    function Stored(): Flat reads this`templates, this`commands, this`periods { Flat(templates, commands, periods) }

    ghost function Recs(): Recs reads this`entries { RecsOf(entries) }

    ghost function Objects(): map<string, Object> reads this`entries { ObjectsOf(RecsOf(entries)) }

    lemma HostsAsValues()
      requires HostsOk()
      ensures HostsAre(entries, Hosts())
    {}

    lemma HostsSettled(hosts0: map<string, Entry?>, tenant: string)
      requires HostsReady(entries, hosts0, tenant) && HostsLinked(entries, hosts0, tenant, {})
      ensures HostsOk()
    {}

    lemma Views()
      ensures Recs() == RecsOf(entries) && Objects() == ObjectsOf(RecsOf(entries))
      ensures RecsOf(entries).Keys == entries.Keys && Hosts().Keys == entries.Keys
      ensures forall id :: id in entries ==> RecsOf(entries)[id] == entries[id].rec && Hosts()[id] == entries[id].host
    {}

    ghost predicate HostsOk() reads this`entries, entries.Values`host {
      forall id :: id in entries ==> entries[id].host == HostOf(entries, entries[id].rec.obj)
    }

    /** The catalog is what a rebuild from its objects and its configuration would make it. */
    ghost predicate Coherent() reads this, entries.Values`host {
      && Tidy(Recs(), byName)
      && FromConfig(Stored(), Recs())
      && AllEdgesOk(Recs(), byName, children, parents)
      && HostsOk()
    }

    ghost function Hosts(): map<string, Entry?> reads this`entries, entries.Values`host {
      map id | id in entries :: entries[id].host
    }

    lemma CoherentMeans()
      requires Coherent()
      ensures Tidy(Recs(), byName) && FromConfig(Stored(), Recs()) && HostsOk()
      ensures AllEdgesOk(Recs(), byName, children, parents) && NoStrays(Recs(), children, parents)
    {}

    twostate lemma HostsStay(tenant: string)
      requires old(HostsOk()) && Hosted(old(Recs()))
      requires SameEntriesElsewhere(old(entries), entries, tenant) && SubEntries(entries, old(entries))
      requires forall x :: x in old(entries) ==> old(entries)[x].host == old(entries[x].host)
      ensures HostsReady(entries, Hosts(), tenant) && entries.Values <= old(entries.Values)
    {
      HostsOfFewer(old(entries), old(Hosts()), entries, Hosts(), tenant);
    }

    twostate lemma HostsStayWith(o: Object)
      requires old(HostsOk()) && Hosted(old(Recs()))
      requires o.id in entries && entries == old(entries)[o.id := entries[o.id]]
      requires entries[o.id].host == null && entries[o.id].rec.obj == o
      requires o.id in old(entries) ==> old(entries)[o.id].rec.obj.tenant == o.tenant
      requires forall x :: x in old(entries) ==> old(entries)[x].host == old(entries[x].host)
      ensures HostsReady(entries, Hosts(), o.tenant)
    {
      HostsAfterPut(old(entries), old(Hosts()), entries, Hosts(), o.id, o.tenant);
    }

    /** Empties the lists kept under the tenant's entries. */
    method Unlink(tenant: string)
      modifies this`children, this`parents
      ensures children == Emptied(old(children), TenantIds(Recs(), tenant))
      ensures parents == Emptied(old(parents), TenantIds(Recs(), tenant))
    {
      var todo := entries.Keys;
      while todo != {}
        invariant todo <= entries.Keys
        invariant children == Emptied(old(children), TenantIds(Recs(), tenant) - todo)
        invariant parents == Emptied(old(parents), TenantIds(Recs(), tenant) - todo)
      {
        var id :| id in todo;
        todo := todo - {id};
        if entries[id].rec.obj.tenant == tenant {
          children, parents := children - {id}, parents - {id};
        }
      }
    }

    /** Adds the links and edges that one entry gives rise to. */
    method Link(id: string)
      requires id in entries
      modifies this`children, this`parents, entries.Values`host
      ensures var r := entries[id].rec;
        && children == WithChild(old(children), r.obj)
        && parents == WithParents(old(parents), r.obj.id, ParentsOf(byName, r))
        && entries[id].host == if OnSomeHost(r.obj) then HostOf(entries, r.obj) else old(entries[id].host)
      ensures forall i :: i in entries && entries[i] != entries[id] ==> entries[i].host == old(entries[i].host)
    {
      var e := entries[id];
      var o := e.rec.obj;
      if o.kind == Service && o.hostId != "" {
        e.host := HostOf(entries, o);
        children := children[o.hostId := At(children, o.hostId) + [o.id]];
      }
      if o.kind == Host {
        var ids := ParentIdsOf(o.tenant, Items(e.rec.effective.parents));
        parents := WithParents(parents, o.id, ids);
      }
    }

    /** How far relinking has come: entries in `todo` are still to be visited. */
    ghost predicate HalfLinked(tenant: string, todo: set<string>, hosts0: map<string, Entry?>, children0: Edges,
                               parents0: Edges)
      reads this`entries, this`byName, this`children, this`parents, entries.Values`host
    {
      && PartlyLinked(Recs(), byName, tenant, TenantIds(Recs(), tenant) - todo, children0, parents0, children, parents)
      && HostsLinked(entries, hosts0, tenant, todo)
      && KeysFrom(Recs(), tenant, children0, parents0, children, parents)
    }

    method Visit(id: string, tenant: string, ghost todo: set<string>, ghost hosts0: map<string, Entry?>,
                 ghost children0: Edges, ghost parents0: Edges)
      requires forall x :: x in entries ==> entries[x].rec.obj.id == x
      requires id in todo && id in entries && HalfLinked(tenant, todo, hosts0, children0, parents0)
      modifies this`children, this`parents, entries.Values`host
      ensures HalfLinked(tenant, todo - {id}, hosts0, children0, parents0)
    {
      hide PartlyLinked, TenantIds, WithChild, WithParents, ParentsOf, HostOf, OnSomeHost, KeysFrom, RecsOf;
      ghost var recs := Recs();
      KeysOfRecs(entries);
      OneMoreDone(recs, tenant, todo, id);
      if entries[id].rec.obj.tenant == tenant {
        VisitOne(recs, byName, tenant, TenantIds(recs, tenant) - todo, id, children0, parents0, children, parents);
        KeysAfterVisit(recs, byName, tenant, children0, parents0, children, parents, id);
        Link(id);
      }
    }

    lemma NotYetLinked(tenant: string, children0: Edges, parents0: Edges)
      requires children == Emptied(children0, TenantIds(Recs(), tenant))
      requires parents == Emptied(parents0, TenantIds(Recs(), tenant))
      ensures HalfLinked(tenant, entries.Keys, Hosts(), children0, parents0)
    {
      hide PartlyLinked, TenantIds, Emptied, KeysFrom;
      NothingVisited(Recs(), byName, tenant, children0, parents0);
      EmptiedKeys(Recs(), tenant, children0, parents0, TenantIds(Recs(), tenant));
      assert Recs().Keys == entries.Keys;
      NoneDone(Recs(), tenant);
    }

    lemma FullyLinked(tenant: string, hosts0: map<string, Entry?>, children0: Edges, parents0: Edges)
      requires HalfLinked(tenant, {}, hosts0, children0, parents0)
      ensures Relinked(Recs(), byName, tenant, children0, parents0, children, parents)
      ensures HostsLinked(entries, hosts0, tenant, {})
    {
      hide PartlyLinked, HostsLinked, TenantIds;
      assert TenantIds(Recs(), tenant) - {} == TenantIds(Recs(), tenant);
    }

    /** Rebuilds the host links and edge lists of a tenant from its entries, visited in no particular order. */
    method Relink(tenant: string)
      requires forall id :: id in entries ==> entries[id].rec.obj.id == id
      modifies this`children, this`parents, entries.Values`host
      ensures Relinked(Recs(), byName, tenant, old(children), old(parents), children, parents)
      ensures HostsLinked(entries, old(Hosts()), tenant, {})
    {
      hide *;
      ghost var hosts0 := Hosts();
      Unlink(tenant);
      NotYetLinked(tenant, old(children), old(parents));
      var todo := entries.Keys;
      while todo != {}
        invariant todo <= entries.Keys && HalfLinked(tenant, todo, hosts0, old(children), old(parents))
      {
        var id :| id in todo;
        Visit(id, tenant, todo, hosts0, old(children), old(parents));
        todo := todo - {id};
      }
      FullyLinked(tenant, hosts0, old(children), old(parents));
    }

    method ParentIdsOf(tenant: string, names: seq<string>) returns (ids: seq<string>)
      ensures ids == ParentIds(byName, tenant, names)
    {
      ids := [];
      for i := 0 to |names|
        invariant ids == ParentIds(byName, tenant, names[..i])
      {
        assert names[..i + 1][..i] == names[..i];
        var key := NameKey(tenant, Host, "", names[i]);
        if key in byName { ids := ids + [byName[key]]; }
      }
      assert names[..|names|] == names;
    }

    /** Relinking after a tenant was patched: with names and configuration right and the other tenants' links as
        they were, everything is right again. The ghost arguments describe the state before the patch. */
    method Restore(tenant: string, ghost recs: Recs, ghost byName0: map<string, string>,
                   ghost children0: Edges, ghost parents0: Edges)
      requires Tidy(recs, byName0) && AllEdgesOk(recs, byName0, children0, parents0)
      requires Tidy(Recs(), byName) && SameElsewhere(recs, Recs(), tenant)
      requires NoStrays(Recs(), children, parents)
      requires SameEdgesElsewhere(recs, tenant, children0, parents0, children, parents)
      requires HostsReady(entries, Hosts(), tenant) && FromConfig(Stored(), Recs())
      modifies this`children, this`parents, entries.Values`host
      ensures Coherent()
    {
      hide Tidy, FromConfig, AllEdgesOk, Relinked, HostsLinked, HostsReady, Hosted, SlashFree, SameElsewhere, RecsOf,
           ObjectsOf, HostsOk, NoStrays;
      ghost var hosts1, children1, parents1 := Hosts(), children, parents;
      FromTidy(Recs(), byName);
      KeysOfRecs(entries);
      Relink(tenant);
      HostsSettled(hosts1, tenant);
      RelinkRestores(recs, byName0, children0, parents0, Recs(), byName, children1, parents1, children, parents,
                     tenant);
    }

    /** Indexes one object. An object that cannot be resolved is indexed with the defaults instead. */
    method IndexOne(o: Object) returns (failed: bool)
      requires Indexable(o, ConfigOf(Stored(), o.tenant))
      modifies this`entries, this`byName
      ensures o.id in entries && fresh(entries[o.id]) && entries[o.id].host == null
      ensures entries == old(entries)[o.id := entries[o.id]] && byName == old(byName)[KeyOf(o) := o.id]
      ensures entries[o.id].rec == Indexed(o, ConfigOf(Stored(), o.tenant))
      ensures Recs() == old(Recs())[o.id := entries[o.id].rec]
      ensures failed == HasConfigError(o, ConfigOf(Stored(), o.tenant))
    {
      hide Resolve, EffectiveSpec, ResolveCommand, KeyOf, ConfigOf;
      var cfg := ConfigOf(Stored(), o.tenant);
      var e: Entry;
      failed := true;
      match EffectiveSpec(o, cfg.templates) {
        case ConfigError => e := new Entry(Defaulted(o));
        case Effective(spec, chain) =>
          match ResolveCommand(spec, cfg.commands) {
            case Unknown => e := new Entry(Defaulted(o));
            case Runs(run) =>
              failed := false;
              var period := if spec.checkPeriod in cfg.periods then Set(cfg.periods[spec.checkPeriod]) else Unset;
              e := new Entry(Rec(o, spec, chain, run, period));
          }
      }
      entries := entries[o.id := e];
      byName := byName[KeyOf(o) := o.id];
    }

    /** Replaces an object's entry and name; edges and links are not right until the tenant is relinked. */
    method Reindex(o: Object) returns (failed: bool)
      requires Coherent()
      requires WellFormed(Objects()[o.id := o]) && (o.id in entries ==> entries[o.id].rec.obj.tenant == o.tenant)
      requires Indexable(o, ConfigOf(Stored(), o.tenant))
      modifies this`entries, this`byName
      ensures Tidy(Recs(), byName) && FromConfig(Stored(), Recs()) && Objects() == old(Objects())[o.id := o]
      ensures SameElsewhere(old(Recs()), Recs(), o.tenant) && NoStrays(Recs(), children, parents)
      ensures SameEdgesElsewhere(old(Recs()), o.tenant, children, parents, children, parents)
      ensures o.id in entries && entries == old(entries)[o.id := entries[o.id]]
      ensures fresh(entries[o.id]) && entries[o.id].rec.obj == o && entries[o.id].host == null
      ensures failed == HasConfigError(o, ConfigOf(Stored(), o.tenant))
    {
      hide *;
      ghost var recs, r := Recs(), Indexed(o, ConfigOf(Stored(), o.tenant));
      Views();
      CoherentMeans();
      PutKeepsTidy(recs, byName, r);
      PutStaysInTenant(recs, byName, children, parents, r);
      PutKeepsConfig(Stored(), recs, r);
      if o.id in entries {
        byName := byName - {KeyOf(entries[o.id].rec.obj)};
      }
      failed := IndexOne(o);
      Views();
    }

    /** Indexes a created or updated object in place, without reading the tenant again. */
    method UpsertObject(o: Object) returns (failed: bool)
      requires Coherent()
      requires WellFormed(Objects()[o.id := o]) && (o.id in entries ==> entries[o.id].rec.obj.tenant == o.tenant)
      requires Indexable(o, ConfigOf(Stored(), o.tenant))
      modifies this`entries, this`byName, this`children, this`parents, entries.Values`host
      ensures Coherent() && Objects() == old(Objects())[o.id := o] && Stored() == old(Stored())
      ensures fresh(entries.Values - old(entries.Values))
      ensures failed == HasConfigError(o, ConfigOf(Stored(), o.tenant))
    {
      hide *;
      ghost var recs, byName0 := Recs(), byName;
      CoherentMeans();
      FromTidy(recs, byName);
      failed := Reindex(o);
      HostsStayWith(o);
      Restore(o.tenant, recs, byName0, children, parents);
    }

    /** Removes one entry with its name and the lists kept under it. */
    method Drop(id: string) returns (found: bool)
      requires NamesOk(Recs(), byName)
      modifies this`entries, this`byName, this`children, this`parents
      ensures found == (id in old(entries)) && NamesOk(Recs(), byName)
      ensures entries == old(entries) - {id} && children == old(children) - {id} && parents == old(parents) - {id}
    {
      hide KeyOf, NamesOk;
      found := id in entries;
      if found {
        KeysOfRecs(entries);
        NamesAfterDrop(Recs(), byName, id);
        RemovalOfEntriesOnly(entries, {id});
        byName := byName - {KeyOf(entries[id].rec.obj)};
        entries := entries - {id};
      }
      children, parents := children - {id}, parents - {id};
      assert !found ==> entries == old(entries) - {id};
    }

    /** Drops entries one after another. */
    method DropAll(ids: seq<string>)
      requires NamesOk(Recs(), byName) && AllIn(ids, entries.Keys) && NoRepeats(ids)
      modifies this`entries, this`byName, this`children, this`parents
      ensures entries == old(entries) - AsSet(ids) && NamesOk(Recs(), byName)
      ensures children == old(children) - AsSet(ids) && parents == old(parents) - AsSet(ids)
    {
      hide NamesOk;
      for i := 0 to |ids|
        invariant entries == old(entries) - AsSet(ids[..i]) && NamesOk(Recs(), byName)
        invariant children == old(children) - AsSet(ids[..i]) && parents == old(parents) - AsSet(ids[..i])
      {
        var _ := Drop(ids[i]);
        assert AsSet(ids[..i + 1]) == AsSet(ids[..i]) + {ids[i]};
      }
      assert ids[..|ids|] == ids;
    }

    /** Drops the services listed under an object, then the object itself. */
    method DropCascade(id: string) returns (removed: seq<string>)
      requires NamesOk(Recs(), byName) && multiset(At(children, id)) == multiset(ServicesOf(Recs(), id))
      requires ServicesOf(Recs(), id) <= Recs().Keys && id !in ServicesOf(Recs(), id)
      modifies this`entries, this`byName, this`children, this`parents
      ensures var gone := old(ServicesOf(Recs(), id)) + {id};
        && entries == old(entries) - gone && children == old(children) - gone && parents == old(parents) - gone
      ensures NamesOk(Recs(), byName)
      ensures multiset(removed) == multiset(old(ServicesOf(Recs(), id)) + if id in old(entries) then {id} else {})
    {
      hide *;
      ghost var gone := ServicesOf(Recs(), id);
      Views();
      removed := At(children, id);
      BagOfSet(removed, gone);
      AllInSet(removed, entries.Keys);
      CascadeIsListed(removed, gone, id, id in entries);
      DropAll(removed);
      var found := Drop(id);
      MinusTwice(old(entries), gone, id);
      MinusTwice(old(children), gone, id);
      MinusTwice(old(parents), gone, id);
      if found { removed := removed + [id]; } else { assert removed + [] == removed; }
    }

    /** Takes an object and its services out; edges are not right until the tenant is relinked. */
    method Cut(tenant: string, id: string) returns (removed: seq<string>)
      requires Coherent() && (id in entries ==> entries[id].rec.obj.tenant == tenant)
      modifies this`entries, this`byName, this`children, this`parents
      ensures Tidy(Recs(), byName) && FromConfig(Stored(), Recs())
      ensures SameElsewhere(old(Recs()), Recs(), tenant) && SameEntriesElsewhere(old(entries), entries, tenant)
      ensures NoStrays(Recs(), children, parents)
      ensures SameEdgesElsewhere(old(Recs()), tenant, old(children), old(parents), children, parents)
      ensures Objects() == old(Objects()) - Cascade(old(Objects()), id)
      ensures multiset(removed) == multiset(Cascade(old(Objects()), id))
      ensures SubEntries(entries, old(entries))
    {
      hide *;
      ghost var recs, byName0, flat := Recs(), byName, Stored();
      Views();
      CoherentMeans();
      FromTidy(recs, byName);
      ServicesAreListed(recs, byName, children, parents, id);
      CascadeIs(recs, id);
      RemovalOfCascade(entries, id, tenant);
      RemovalStaysInTenant(recs, byName, children, parents, flat, id, tenant);
      removed := DropCascade(id);
      Views();
      RemovalKeepsTidy(recs, byName0, id, byName);
    }

    /** Removes an object and, when it is a host, its services; reports every removed id once. */
    method RemoveObject(tenant: string, id: string) returns (removed: seq<string>)
      requires Coherent() && (id in entries ==> entries[id].rec.obj.tenant == tenant)
      modifies this`entries, this`byName, this`children, this`parents, entries.Values`host
      ensures Coherent() && Stored() == old(Stored())
      ensures Objects() == old(Objects()) - Cascade(old(Objects()), id)
      ensures multiset(removed) == multiset(Cascade(old(Objects()), id))
      ensures entries.Values <= old(entries.Values)
    {
      hide *;
      ghost var recs, byName0, children0, parents0 := Recs(), byName, children, parents;
      CoherentMeans();
      FromTidy(recs, byName);
      removed := Cut(tenant, id);
      HostsStay(tenant);
      Restore(tenant, recs, byName0, children0, parents0);
    }

    // ---- loading a tenant -----------------------------------------------------------------------

    /** The first n objects of a listing are indexed on top of the entries there were. */
    ghost predicate PartlyIndexed(recs1: Recs, entries1: Entries, hosts1: map<string, Entry?>, cfg: Config,
                                  tenant: string,
                                  listing: seq<Object>, n: nat)
      reads this`entries, this`byName, entries.Values`host
    {
      && Indexing(recs1, cfg, listing, n, Recs()) && NamesOk(Recs(), byName) && SubEntries(entries1, entries)
      && (forall id :: id in entries && id !in entries1 ==>
            entries[id].host == null && entries[id].rec.obj.tenant == tenant)
      && (forall id :: id in entries && id in entries1 && id in hosts1 ==> entries[id].host == hosts1[id])
    }

    /** What loading a listing needs. */
    ghost predicate Loadable(recs1: Recs, entries1: Entries, cfg: Config, tenant: string, listing: seq<Object>,
                             objs: map<string, Object>)
      reads this`templates, this`commands, this`periods
    {
      && IsListing(objs, tenant, listing) && WellFormed(objs)
      && recs1 == RecsOf(entries1) && ObjectsOf(recs1) == Outside(objs, tenant)
      && cfg == ConfigOf(Stored(), tenant) && forall i :: 0 <= i < |listing| ==> Indexable(listing[i], cfg)
    }

    method IndexNext(o: Object, ghost recs1: Recs, ghost entries1: Entries, ghost hosts1: map<string, Entry?>,
                     ghost cfg: Config, ghost tenant: string, ghost listing: seq<Object>,
                     ghost objs: map<string, Object>, ghost n: nat)
      requires n < |listing| && o == listing[n] && Loadable(recs1, entries1, cfg, tenant, listing, objs)
      requires PartlyIndexed(recs1, entries1, hosts1, cfg, tenant, listing, n)
      modifies this`entries, this`byName
      ensures PartlyIndexed(recs1, entries1, hosts1, cfg, tenant, listing, n + 1)
      ensures fresh(entries.Values - old(entries.Values))
    {
      hide WellFormed, ConfigOf, Indexable, Indexed, NamesOk, KeyOf, HasConfigError, SubEntries, ObjectsOf, Outside,
           Indexing;
      IndexingStep(recs1, cfg, listing, n, Recs(), objs, tenant, byName);
      NotYetIndexed(recs1, entries1, cfg, listing, n, Recs(), objs, tenant);
      ghost var before := entries;
      var _ := IndexOne(o);
      SubIsKept(entries1, before, o.id, entries[o.id]);
    }

    method IndexPages(listing: seq<Object>, ghost recs1: Recs, ghost entries1: Entries,
                      ghost hosts1: map<string, Entry?>,
                      ghost cfg: Config, ghost tenant: string, ghost objs: map<string, Object>)
      requires Loadable(recs1, entries1, cfg, tenant, listing, objs)
      requires PartlyIndexed(recs1, entries1, hosts1, cfg, tenant, listing, 0)
      modifies this`entries, this`byName
      ensures PartlyIndexed(recs1, entries1, hosts1, cfg, tenant, listing, |listing|)
      ensures fresh(entries.Values - old(entries.Values))
    {
      hide PartlyIndexed, After, ListObjects, Indexing, WellFormed, ObjectsOf, Outside, ConfigOf, Indexable, IsListing,
           RecsOf, PAGE;
      var cursor, n, more := "", 0, true;
      while more
        invariant 0 <= n <= |listing| && (more ==> cursor == if n == 0 then "" else listing[n - 1].id) && (!more ==>
          n == |listing|)
        invariant PartlyIndexed(recs1, entries1, hosts1, cfg, tenant, listing, n)
        invariant fresh(entries.Values - old(entries.Values))
        decreases more, |listing| - n
      {
        var page := ListObjects(listing, cursor, PAGE);
        PageIsNext(listing, cursor, n, objs, tenant);
        for k := 0 to |page|
          invariant n + |page| <= |listing| && page == listing[n..n + |page|]
          invariant PartlyIndexed(recs1, entries1, hosts1, cfg, tenant, listing, n + k)
          invariant fresh(entries.Values - old(entries.Values))
        {
          IndexNext(page[k], recs1, entries1, hosts1, cfg, tenant, listing, objs, n + k);
        }
        n := n + |page|;
        if |page| < PAGE { more := false; } else { cursor := page[|page| - 1].id; }
      }
    }

    /** Forgets a tenant's entries and the lists kept under them. */
    method DropEntries(tenant: string)
      modifies this`entries, this`children, this`parents
      ensures entries == old(entries) - TenantIds(old(Recs()), tenant)
      ensures children == Emptied(old(children), TenantIds(old(Recs()), tenant))
      ensures parents == Emptied(old(parents), TenantIds(old(Recs()), tenant))
    {
      ghost var recs := Recs();
      var todo := entries.Keys;
      while todo != {}
        invariant todo <= old(entries).Keys
        invariant entries == old(entries) - (TenantIds(recs, tenant) - todo)
        invariant children == Emptied(old(children), TenantIds(recs, tenant) - todo)
        invariant parents == Emptied(old(parents), TenantIds(recs, tenant) - todo)
      {
        var id :| id in todo;
        if entries[id].rec.obj.tenant == tenant {
          entries, children, parents := entries - {id}, children - {id}, parents - {id};
        }
        todo := todo - {id};
      }
    }

    /** Forgets a tenant's entries, names, edge lists and configuration. */
    method DropTenant(tenant: string)
      requires SlashFree(tenant)
      modifies this
      ensures entries == WithoutTenantEntries(old(entries), tenant) && byName == WithoutTenant(old(byName), tenant)
      ensures children == Emptied(old(children), TenantIds(old(Recs()), tenant))
      ensures parents == Emptied(old(parents), TenantIds(old(Recs()), tenant))
      ensures ConfigOf(Stored(), tenant) == Config(map[], map[], map[])
      ensures SameConfigElsewhere(old(Stored()), Stored(), tenant)
    {
      hide Slice, WithoutTenant, Emptied, WithoutTenantEntries, TenantIds, SlashFree;
      DropOfEntries(entries, tenant);
      DropEntries(tenant);
      byName := WithoutTenant(byName, tenant);
      SliceWithoutTenant(templates, tenant);
      SliceWithoutTenant(commands, tenant);
      SliceWithoutTenant(periods, tenant);
      templates := WithoutTenant(templates, tenant);
      commands := WithoutTenant(commands, tenant);
      periods := WithoutTenant(periods, tenant);
    }

    /** Stores a tenant's configuration. */
    method PutSettings(tenant: string, s: Settings)
      requires SlashFree(tenant) && ConfigOf(Stored(), tenant) == Config(map[], map[], map[])
      modifies this`templates, this`commands, this`periods
      ensures ConfigOf(Stored(), tenant) == AsConfig(s) && SameConfigElsewhere(old(Stored()), Stored(), tenant)
    {
      hide Slice, SlashFree, AsMap;
      templates := PutAll(templates, tenant, s.templates);
      commands := PutAll(commands, tenant, s.commands);
      periods := PutAll(periods, tenant, s.periods);
    }

    /** A coherent state that agrees with this one outside the tenant. */
    ghost predicate AgreesWith(recs: Recs, byName0: map<string, string>, children0: Edges, parents0: Edges,
                               tenant: string)
      reads this`entries, this`children, this`parents
    {
      && Tidy(recs, byName0) && AllEdgesOk(recs, byName0, children0, parents0)
      && SameElsewhere(recs, Recs(), tenant)
      && SameEdgesElsewhere(recs, tenant, children0, parents0, children, parents)
    }

    lemma AgreementMeans(recs: Recs, byName0: map<string, string>, children0: Edges, parents0: Edges, tenant: string)
      requires AgreesWith(recs, byName0, children0, parents0, tenant)
      ensures Tidy(recs, byName0) && AllEdgesOk(recs, byName0, children0, parents0)
      ensures SameElsewhere(recs, Recs(), tenant)
      ensures SameEdgesElsewhere(recs, tenant, children0, parents0, children, parents)
    {}

    /** Reads a tenant that is not indexed yet: configuration, objects page by page, then edges. The ghost
        arguments describe a coherent state that agrees with this one outside the tenant. */
    method LoadTenant(tenant: string, s: Settings, listing: seq<Object>, ghost objs: map<string, Object>,
                      ghost recs: Recs, ghost byName0: map<string, string>,
                      ghost children0: Edges, ghost parents0: Edges)
      requires SlashFree(tenant) && ConfigOf(Stored(), tenant) == Config(map[], map[], map[])
      requires IsListing(objs, tenant, listing) && WellFormed(objs) && Objects() == Outside(objs, tenant)
      requires forall i :: 0 <= i < |listing| ==> Indexable(listing[i], AsConfig(s))
      requires AgreesWith(recs, byName0, children0, parents0, tenant)
      requires NamesOk(Recs(), byName) && FromConfig(Stored(), Recs()) && NoStrays(Recs(), children, parents)
      requires HostsReady(entries, Hosts(), tenant)
      modifies this, entries.Values`host
      ensures Coherent() && Objects() == objs && fresh(entries.Values - old(entries.Values))
      ensures ConfigOf(Stored(), tenant) == AsConfig(s) && SameConfigElsewhere(old(Stored()), Stored(), tenant)
    {
      hide *;
      ghost var flat, recs1, entries1, hosts1, cfg := Stored(), Recs(), entries, Hosts(), AsConfig(s);
      Views();
      AgreementMeans(recs, byName0, children0, parents0, tenant);
      NoTenantIsOutside(recs1, objs, tenant);
      PutSettings(tenant, s);
      ConfigKeptOutside(flat, Stored(), tenant, recs1, objs);
      StartIndexing(recs1, entries1, hosts1, cfg, tenant, listing, objs);
      IndexPages(listing, recs1, entries1, hosts1, cfg, tenant, objs);
      DoneIndexing(recs1, entries1, hosts1, cfg, tenant, listing, objs, recs);
      Restore(tenant, recs, byName0, children0, parents0);
    }

    lemma StartIndexing(recs1: Recs, entries1: Entries, hosts1: map<string, Entry?>, cfg: Config, tenant: string,
                        listing: seq<Object>, objs: map<string, Object>)
      requires recs1 == Recs() && hosts1 == Hosts() && entries1 == entries && NamesOk(Recs(), byName)
      requires cfg == ConfigOf(Stored(), tenant)
      requires IsListing(objs, tenant, listing) && WellFormed(objs) && Objects() == Outside(objs, tenant)
      requires forall i :: 0 <= i < |listing| ==> Indexable(listing[i], cfg)
      ensures Loadable(recs1, entries1, cfg, tenant, listing, objs)
      ensures PartlyIndexed(recs1, entries1, hosts1, cfg, tenant, listing, 0)
    {
      hide IsListing, WellFormed, Outside, NamesOk, ConfigOf, Indexable;
    }

    lemma DoneIndexing(recs1: Recs, entries1: Entries, hosts1: map<string, Entry?>, cfg: Config, tenant: string,
                       listing: seq<Object>, objs: map<string, Object>, recs: Recs)
      requires Loadable(recs1, entries1, cfg, tenant, listing, objs)
      requires PartlyIndexed(recs1, entries1, hosts1, cfg, tenant, listing, |listing|)
      requires FromConfig(Stored(), recs1) && SameElsewhere(recs, recs1, tenant) && NoStrays(recs1, children, parents)
      requires HostsReady(entries1, hosts1, tenant) && Hosted(recs1) && hosts1.Keys == entries1.Keys
      ensures Objects() == objs && Tidy(Recs(), byName) && FromConfig(Stored(), Recs())
      ensures SameElsewhere(recs, Recs(), tenant) && NoStrays(Recs(), children, parents)
      ensures HostsReady(entries, Hosts(), tenant)
    {
      hide NamesOk, ConfigOf, Indexable, WellFormed, FromConfig, SameElsewhere, NoStrays, SubEntries, Indexing,
           ObjectsOf, Outside,
           HostsReady, Hosted;
      IndexingDone(recs1, cfg, listing, Recs(), objs, tenant);
      ConfigAfterIndexing(Stored(), recs1, tenant, listing, Recs());
      IndexingStaysInTenant(recs, recs1, cfg, tenant, listing, Recs(), children, parents);
      HostsOfMore(entries1, hosts1, entries, Hosts(), tenant);
    }

    /** Forgets a tenant and reads it again from the store. */
    method ReloadTenant(tenant: string, s: Settings, listing: seq<Object>, ghost objs: map<string, Object>)
      requires Coherent() && SlashFree(tenant)
      requires WellFormed(objs) && Outside(objs, tenant) == Outside(Objects(), tenant)
      requires Readable(objs, tenant, s, listing)
      modifies this, entries.Values`host
      ensures Coherent() && Objects() == objs && fresh(entries.Values - old(entries.Values))
      ensures ConfigOf(Stored(), tenant) == AsConfig(s) && SameConfigElsewhere(old(Stored()), Stored(), tenant)
    {
      hide *;
      ghost var recs, byName0, children0, parents0, flat := Recs(), byName, children, parents, Stored();
      Views();
      CoherentMeans();
      FromTidy(recs, byName);
      DropOfEntries(entries, tenant);
      DropStaysInTenant(recs, children, parents, flat, tenant);
      NamesAfterTenantDrop(recs, byName, tenant);
      DropTenant(tenant);
      Views();
      HostsStay(tenant);
      ConfigAfterDrop(flat, Stored(), tenant, recs);
      Agree(recs, byName0, children0, parents0, tenant);
      ReadableMeans(objs, tenant, s, listing);
      ghost var flat1 := Stored();
      LoadTenant(tenant, s, listing, objs, recs, byName0, children0, parents0);
      SameConfigTwice(flat, flat1, Stored(), tenant);
    }

    lemma Agree(recs: Recs, byName0: map<string, string>, children0: Edges, parents0: Edges, tenant: string)
      requires Tidy(recs, byName0) && AllEdgesOk(recs, byName0, children0, parents0)
      requires SameElsewhere(recs, Recs(), tenant)
      requires SameEdgesElsewhere(recs, tenant, children0, parents0, children, parents)
      ensures AgreesWith(recs, byName0, children0, parents0, tenant)
    {}

    /** Ready for the next tenant: it has no entries here, so its hosts and edges need no undoing. */
    lemma ReadyFor(objs: map<string, Object>, tenants: set<string>, t: string)
      requires Coherent() && Objects() == OfTenants(objs, tenants) && t !in tenants
      ensures HostsReady(entries, Hosts(), t) && AgreesWith(Recs(), byName, children, parents, t)
      ensures NamesOk(Recs(), byName) && FromConfig(Stored(), Recs()) && NoStrays(Recs(), children, parents)
    {
      hide FromConfig, EdgesOk, WellFormed, NamesOk, OfTenants;
      NoneOfTenant(Recs(), objs, tenants, t);
      HostsAsValues();
    }

    /** Rebuilds everything from the store. */
    method LoadAll(tenants: seq<string>, settings: map<string, Settings>, listings: Listings, ghost w: World)
      requires settings == w.settings && Loadables(w, tenants, listings)
      modifies this
      ensures Follows(w) && fresh(entries.Values)
    {
      hide *;
      entries, byName, children, parents := map[], map[], map[], map[];
      templates, commands, periods := map[], map[], map[];
      NothingLoaded(w.objs);
      NothingStored(w, tenants);
      StartEmpty(w.objs, tenants[..0]);
      for n := 0 to |tenants|
        invariant Coherent() && Objects() == OfTenants(w.objs, AsSet(tenants[..n])) && fresh(entries.Values)
        invariant FirstStored(Stored(), w, tenants, n)
      {
        NextTenant(w, tenants, listings, n);
        var t := tenants[n];
        ReadyFor(w.objs, AsSet(tenants[..n]), t);
        EmptyFor(w, tenants, n);
        ghost var flat := Stored();
        LoadTenant(t, settings[t], listings[t], OfTenants(w.objs, AsSet(tenants[..n + 1])),
                   Recs(), byName, children, parents);
        OneMoreStored(flat, Stored(), w, tenants, listings, n);
      }
      Loaded(w, tenants, listings);
    }

    lemma StartEmpty(objs: map<string, Object>, none: seq<string>)
      requires entries == map[] && byName == map[] && children == map[] && parents == map[] && none == []
      requires templates == map[] && commands == map[] && periods == map[]
      ensures Coherent() && Objects() == OfTenants(objs, AsSet(none))
      ensures Stored() == Flat(map[], map[], map[])
    {
      NothingLoaded(objs);
    }

    lemma EmptyFor(w: World, tenants: seq<string>, n: nat)
      requires FirstStored(Stored(), w, tenants, n) && n < |tenants| && tenants[n] in w.settings
      ensures ConfigOf(Stored(), tenants[n]) == Config(map[], map[], map[])
    {}

    lemma Loaded(w: World, tenants: seq<string>, listings: Listings)
      requires Loadables(w, tenants, listings) && Coherent()
      requires Objects() == OfTenants(w.objs, AsSet(tenants[..|tenants|]))
      requires FirstStored(Stored(), w, tenants, |tenants|)
      ensures Follows(w)
    {
      hide WellFormed, Coherent, Objects, Readable, FirstStored, NoRepeats;
      assert tenants[..|tenants|] == tenants;
      AllStored(Stored(), w, tenants, listings);
      AllTenants(w.objs, AsSet(tenants));
    }

    /** The catalog is what a rebuild from the store would make it. */
    ghost predicate Follows(w: World) reads this, entries.Values`host {
      WorldOk(w) && Coherent() && Objects() == w.objs && SettingsStored(Stored(), w.settings)
    }

    lemma Fits(e: Event, w: World)
      requires Follows(w) && Possible(w, e)
      ensures Coherent() && Objects() == w.objs && SettingsStored(Stored(), w.settings) && WorldOk(Next(w, e))
      ensures match e
        case Saved(o) =>
          && WellFormed(w.objs[o.id := o]) && (o.id in entries ==> entries[o.id].rec.obj.tenant == o.tenant)
          && Indexable(o, ConfigOf(Stored(), o.tenant))
        case Deleted(tenant, id) => id in entries ==> entries[id].rec.obj.tenant == tenant
        case Reloaded(tenant, s, listing, objs) =>
          && SlashFree(tenant) && WellFormed(objs) && Outside(objs, tenant) == Outside(w.objs, tenant)
          && Readable(objs, tenant, s, listing)
    {
      hide Coherent, WellFormed, Indexable, ConfigOf, AsConfig, SlashFree, WorldOk, Readable, Outside;
      WorldStaysOk(w, e);
      assert forall id :: id in entries ==> id in Objects() && Objects()[id] == entries[id].rec.obj;
    }

    method Handle(e: Event, ghost w: World)
      requires Follows(w) && Possible(w, e)
      modifies this, entries.Values`host
      ensures Follows(Next(w, e)) && fresh(entries.Values - old(entries.Values))
    {
      hide WorldOk, Coherent, RecsOf, ObjectsOf, ConfigOf, Indexable, WellFormed, Outside, SlashFree, Cascade, Stored,
           SameConfigElsewhere, SettingsStored, Objects, Readable, Possible;
      Fits(e, w);
      ghost var flat := Stored();
      match e {
        case Saved(o) =>
          var _ := UpsertObject(o);
        case Deleted(tenant, id) =>
          var _ := RemoveObject(tenant, id);
        case Reloaded(tenant, s, listing, objs) =>
          ReloadTenant(tenant, s, listing, objs);
          SettingsAfterReload(flat, Stored(), w, e);
      }
    }

    /** Finds an entry by the four parts of its name. */
    method GetByName(tenant: string, kind: Kind, hostId: string, name: string) returns (e: Entry?)
      requires Coherent() && SlashFree(tenant) && SlashFree(hostId)
      ensures e == null <==> forall id :: id in Objects() ==>
        var o := Objects()[id]; !(o.tenant == tenant && o.kind == kind && o.hostId == hostId && o.name == name)
      ensures e != null ==>
        var o := e.rec.obj;
        o in Objects().Values && o.tenant == tenant && o.kind == kind && o.hostId == hostId && o.name == name
    {
      hide NameKey, FromConfig, AllEdgesOk, HostsOk, SlashFree, Hosted;
      FromTidy(Recs(), byName);
      assert forall id :: id in entries ==> id in Objects() && Objects()[id] == Recs()[id].obj;
      forall id | id in Recs() && KeyOf(Recs()[id].obj) == NameKey(tenant, kind, hostId, name)
        ensures var o := Recs()[id].obj; o.tenant == tenant && o.kind == kind && o.hostId == hostId && o.name == name
      {
        var o := Recs()[id].obj;
        NameKeyIsInjective(o.tenant, o.kind, o.hostId, o.name, tenant, kind, hostId, name);
      }
      var key := NameKey(tenant, kind, hostId, name);
      if key in byName {
        e := entries[byName[key]];
      } else {
        e := null;
      }
    }

    /** Any run of saves, deletions and reloads leaves the catalog as a rebuild from the store would make it. */
    method Run(events: seq<Event>, ghost w: World)
      requires Follows(w) && AllPossible(w, events)
      modifies this, entries.Values`host
      ensures Follows(NextAll(w, events)) && fresh(entries.Values - old(entries.Values))
    {
      hide Follows, Possible, Next;
      ghost var now := w;
      for i := 0 to |events|
        invariant Follows(now) && AllPossible(now, events[i..]) && NextAll(now, events[i..]) == NextAll(w, events)
        invariant fresh(entries.Values - old(entries.Values))
      {
        assert events[i..][0] == events[i] && events[i..][1..] == events[i + 1..];
        Handle(events[i], now);
        now := Next(now, events[i]);
      }
    }
  }

  /** What an observer can tell about the index: entries, names, hosts, children in any order, parents in order. */
  ghost predicate SameIndex(a: Catalog, b: Catalog)
    reads a, a.entries.Values`host, b, b.entries.Values`host
  {
    && a.Recs() == b.Recs() && a.byName == b.byName
    && (forall id ::
          multiset(At(a.children, id)) == multiset(At(b.children, id)) && At(a.parents, id) == At(b.parents, id))
    && (forall id :: id in a.entries && id in b.entries ==>
          var h, k := a.entries[id].host, b.entries[id].host;
          (h == null && k == null) || (h != null && k != null && h.rec == k.rec))
  }

  lemma {:induction false} NamesAreDetermined(recs: Recs, byName: map<string, string>, byName': map<string, string>)
    requires NamesOk(recs, byName) && NamesOk(recs, byName')
    ensures byName == byName'
  {
    hide KeyOf;
    forall k ensures k in byName <==> k in byName' {
      if k in byName { assert KeyOf(recs[byName[k]].obj) == k; }
      if k in byName' { assert KeyOf(recs[byName'[k]].obj) == k; }
    }
    forall k | k in byName ensures byName[k] == byName'[k] {
      assert KeyOf(recs[byName[k]].obj) == k;
    }
  }

  lemma RecsAreDetermined(recs: Recs, recs': Recs, flat: Flat, flat': Flat, w: World)
    requires WorldOk(w) && ObjectsOf(recs) == w.objs && ObjectsOf(recs') == w.objs
    requires FromConfig(flat, recs) && FromConfig(flat', recs')
    requires SettingsStored(flat, w.settings) && SettingsStored(flat', w.settings)
    ensures recs == recs'
  {
    hide ConfigOf, Indexable, Indexed, WellFormed, SlashFree, AsConfig;
    assert recs.Keys == ObjectsOf(recs).Keys && recs'.Keys == ObjectsOf(recs').Keys;
    forall id | id in recs ensures recs[id] == recs'[id] {
      assert ObjectsOf(recs)[id] == recs[id].obj && ObjectsOf(recs')[id] == recs'[id].obj;
      assert w.objs[id].tenant in w.settings;
    }
  }

  lemma EdgesAreDetermined(recs: Recs, byName: map<string, string>, children: Edges, parents: Edges,
                           children': Edges, parents': Edges, id: string)
    requires AllEdgesOk(recs, byName, children, parents) && AllEdgesOk(recs, byName, children', parents')
    ensures multiset(At(children, id)) == multiset(At(children', id)) && At(parents, id) == At(parents', id)
  {
    hide ParentsOf, ServicesOf, At;
    NothingUnderStrays(recs, children, parents, id);
    NothingUnderStrays(recs, children', parents', id);
    if id in recs {
      assert EdgesOk(recs, byName, children, parents, id) && EdgesOk(recs, byName, children', parents', id);
    }
  }

  lemma NothingUnderStrays(recs: Recs, children: Edges, parents: Edges, id: string)
    requires NoStrays(recs, children, parents)
    ensures id !in recs ==> At(children, id) == [] && At(parents, id) == []
  {}

  /** Two catalogs that follow the same store are indistinguishable: whatever the runs that led here, both are the
      rebuild. */
  lemma FollowingDeterminesTheIndex(a: Catalog, b: Catalog, w: World)
    requires a.Follows(w) && b.Follows(w)
    ensures SameIndex(a, b)
  {
    hide ConfigOf, WorldOk, FromConfig, AllEdgesOk, ObjectsOf, RecsOf, SettingsStored, HostOf, Tidy, At;
    FromTidy(a.Recs(), a.byName);
    FromTidy(b.Recs(), b.byName);
    RecsAreDetermined(a.Recs(), b.Recs(), a.Stored(), b.Stored(), w);
    NamesAreDetermined(a.Recs(), a.byName, b.byName);
    forall id
      ensures multiset(At(a.children, id)) == multiset(At(b.children, id)) && At(a.parents, id) == At(b.parents, id)
    {
      EdgesAreDetermined(a.Recs(), a.byName, a.children, a.parents, b.children, b.parents, id);
    }
    forall id | id in a.entries && id in b.entries
      ensures var h, k := a.entries[id].host, b.entries[id].host;
        (h == null && k == null) || (h != null && k != null && h.rec == k.rec)
    {
      HostsAreDetermined(a.entries, b.entries, id);
    }
  }

  lemma HostsAreDetermined(entries: Entries, entries': Entries, id: string)
    requires RecsOf(entries) == RecsOf(entries') && id in entries && id in entries'
    ensures var h, k := HostOf(entries, entries[id].rec.obj), HostOf(entries', entries'[id].rec.obj);
      (h == null && k == null) || (h != null && k != null && h.rec == k.rec)
  {
    var o := entries[id].rec.obj;
    assert RecsOf(entries)[id] == RecsOf(entries')[id];
    assert o.hostId in entries <==> o.hostId in RecsOf(entries);
    assert o.hostId in entries' <==> o.hostId in RecsOf(entries');
    if o.hostId in entries { assert RecsOf(entries)[o.hostId] == entries[o.hostId].rec; }
  }

  /** The incremental index is a rebuild: after any run from a loaded catalog, a second catalog loaded afresh from
      the store as it is then holds the same index. */
  method RunEqualsRebuild(c: Catalog, ghost w: World, events: seq<Event>,
                          tenants: seq<string>, settings: map<string, Settings>, listings: Listings)
    returns (rebuilt: Catalog)
    requires c.Follows(w) && AllPossible(w, events)
    requires Loadables(NextAll(w, events), tenants, listings) && settings == NextAll(w, events).settings
    modifies c, c.entries.Values`host
    ensures fresh(rebuilt) && SameIndex(c, rebuilt) && c.Follows(NextAll(w, events))
  {
    hide *;
    c.Run(events, w);
    rebuilt := new Catalog();
    rebuilt.LoadAll(tenants, settings, listings, NextAll(w, events));
    FollowingDeterminesTheIndex(c, rebuilt, NextAll(w, events));
  }
}
