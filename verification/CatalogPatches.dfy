/** Patching the catalog, on values (internal/catalog/catalog.go): entries and their host links, reading listings page
    by page, and what puts, removals and reloads do to records, names, edges and links. */
module CatalogPatches {
  import opened Basics
  import opened CatalogModel
  import opened CatalogIndex

  const PAGE: nat := 2000

  class Entry {
    const rec: Rec
    var host: Entry?

    constructor (rec: Rec)
      ensures this.rec == rec && host == null
    {
      this.rec := rec;
      host := null;
    }
  }

  type Entries = map<string, Entry>

  ghost function RecsOf(entries: Entries): Recs { map id | id in entries :: entries[id].rec }

  predicate OnSomeHost(o: Object) { o.kind == Service && o.hostId != "" }

  /** The entry a service's host link should point to. */
  function HostOf(entries: Entries, o: Object): Entry? {
    if OnSomeHost(o) && o.hostId in entries then entries[o.hostId] else null
  }

  // ---- stored configuration ---------------------------------------------------------------------

  /** The three configuration maps, keyed tenant/name. */
  datatype Flat = Flat(templates: map<string, Spec>, commands: map<string, Command>, periods: map<string, Period>)

  function ConfigOf(flat: Flat, tenant: string): Config {
    Config(Slice(flat.templates, tenant), Slice(flat.commands, tenant), Slice(flat.periods, tenant))
  }

  /** A tenant's configuration as the store lists it. */
  datatype Settings =
    Settings(templates: seq<(string, Spec)>, commands: seq<(string, Command)>, periods: seq<(string, Period)>)

  function AsConfig(s: Settings): Config { Config(AsMap(s.templates), AsMap(s.commands), AsMap(s.periods)) }

  predicate HasConfigError(o: Object, cfg: Config) {
    var e := EffectiveSpec(o, cfg.templates);
    e.ConfigError? || ResolveCommand(e.spec, cfg.commands) == Unknown
  }

  ghost predicate FromConfig(flat: Flat, recs: Recs) {
    forall id :: id in recs ==>
      var cfg := ConfigOf(flat, recs[id].obj.tenant);
      Indexable(recs[id].obj, cfg) && recs[id] == Indexed(recs[id].obj, cfg)
  }

  ghost predicate SameConfigElsewhere(flat: Flat, flat': Flat, tenant: string) {
    forall t :: SlashFree(t) && t != tenant ==> ConfigOf(flat', t) == ConfigOf(flat, t)
  }

  // ---- the store's listing ----------------------------------------------------------------------

  function After(listing: seq<Object>, cursor: string): seq<Object> {
    if cursor == "" then listing
    else if listing == [] then []
    else if listing[0].id == cursor then listing[1..]
    else After(listing[1..], cursor)
  }

  /** One page of a tenant's objects, listed in the order of their ids, from after the cursor. */
  function ListObjects(listing: seq<Object>, cursor: string, limit: nat): seq<Object> {
    var rest := After(listing, cursor);
    if |rest| <= limit then rest else rest[..limit]
  }

  ghost predicate Distinct(listing: seq<Object>) {
    && (forall i :: 0 <= i < |listing| ==> listing[i].id != "")
    && (forall i, j :: 0 <= i < j < |listing| ==> listing[i].id != listing[j].id)
  }

  lemma {:induction false} AfterIs(listing: seq<Object>, i: nat)
    requires Distinct(listing) && 0 < i <= |listing|
    ensures After(listing, listing[i - 1].id) == listing[i..]
  {
    if i > 1 {
      AfterIs(listing[1..], i - 1);
      assert listing[1..][i - 2] == listing[i - 1] && listing[1..][i - 1..] == listing[i..];
    }
  }

  /** The listing holds exactly the tenant's objects, each once. */
  ghost predicate IsListing(objs: map<string, Object>, tenant: string, listing: seq<Object>) {
    && Distinct(listing)
    && (forall i :: 0 <= i < |listing| ==>
          listing[i].id in objs && objs[listing[i].id] == listing[i] && listing[i].tenant == tenant)
    && (forall id :: id in objs && objs[id].tenant == tenant ==> exists i :: 0 <= i < |listing| && listing[i].id == id)
  }

  function Outside(objs: map<string, Object>, tenant: string): map<string, Object> {
    map id | id in objs && objs[id].tenant != tenant :: objs[id]
  }

  /** Entries while a listing is being indexed: those from before and the first n of the listing. */
  ghost predicate Indexing(recs0: Recs, cfg: Config, listing: seq<Object>, n: nat, recs: Recs) {
    && n <= |listing|
    && (forall id :: id in recs0 ==> id in recs && recs[id] == recs0[id])
    && (forall i :: 0 <= i < n ==>
          && listing[i].id in recs && Indexable(listing[i], cfg) && recs[listing[i].id] == Indexed(listing[i], cfg))
    && (forall id :: id in recs ==> id in recs0 || exists i :: 0 <= i < n && listing[i].id == id)
  }

  lemma IndexedSoFar(recs0: Recs, cfg: Config, listing: seq<Object>, n: nat, recs: Recs,
                     objs: map<string, Object>, tenant: string, id: string)
    requires Indexing(recs0, cfg, listing, n, recs) && n < |listing|
    requires IsListing(objs, tenant, listing) && ObjectsOf(recs0) == Outside(objs, tenant)
    requires id in recs
    ensures id in objs && recs[id].obj == objs[id] && id != listing[n].id
  {
    hide Indexed, Indexable;
    if id in recs0 { assert ObjectsOf(recs0)[id] == recs0[id].obj; }
  }

  lemma IndexingAdds(recs0: Recs, cfg: Config, listing: seq<Object>, n: nat, recs: Recs)
    requires Indexing(recs0, cfg, listing, n, recs) && n < |listing| && Indexable(listing[n], cfg)
    requires listing[n].id !in recs
    ensures Indexing(recs0, cfg, listing, n + 1, recs[listing[n].id := Indexed(listing[n], cfg)])
  {
    hide Indexed, Indexable;
  }

  lemma IndexingStep(recs0: Recs, cfg: Config, listing: seq<Object>, n: nat, recs: Recs,
                     objs: map<string, Object>, tenant: string, byName: map<string, string>)
    requires Indexing(recs0, cfg, listing, n, recs) && n < |listing| && Indexable(listing[n], cfg)
    requires IsListing(objs, tenant, listing) && WellFormed(objs) && ObjectsOf(recs0) == Outside(objs, tenant)
    requires NamesOk(recs, byName)
    ensures Indexing(recs0, cfg, listing, n + 1, recs[listing[n].id := Indexed(listing[n], cfg)])
    ensures NamesOk(recs[listing[n].id := Indexed(listing[n], cfg)], byName[KeyOf(listing[n]) := listing[n].id])
  {
    hide KeyOf, Indexed, Indexable, NamesOk, SlashFree, Indexing;
    var o := listing[n];
    forall id | id in recs ensures id != o.id && KeyOf(recs[id].obj) != KeyOf(o) {
      IndexedSoFar(recs0, cfg, listing, n, recs, objs, tenant, id);
    }
    IndexingAdds(recs0, cfg, listing, n, recs);
    NamesAfterAdd(recs, byName, Indexed(o, cfg));
  }

  lemma PageIsNext(listing: seq<Object>, cursor: string, n: nat, objs: map<string, Object>, tenant: string)
    requires IsListing(objs, tenant, listing) && n <= |listing| && cursor == if n == 0 then "" else listing[n - 1].id
    ensures var page := ListObjects(listing, cursor, PAGE);
      && n + |page| <= |listing| && page == listing[n..n + |page|]
      && (|page| < PAGE ==> n + |page| == |listing|) && PAGE > 0
  {
    if n > 0 { AfterIs(listing, n); }
  }

  lemma NotYetIndexed(recs1: Recs, entries1: Entries, cfg: Config, listing: seq<Object>, n: nat, recs: Recs,
                      objs: map<string, Object>, tenant: string)
    requires Indexing(recs1, cfg, listing, n, recs) && n < |listing| && IsListing(objs, tenant, listing)
    requires recs1 == RecsOf(entries1) && ObjectsOf(recs1) == Outside(objs, tenant)
    ensures listing[n].id !in recs && listing[n].id !in entries1
  {
    if listing[n].id in recs { IndexedSoFar(recs1, cfg, listing, n, recs, objs, tenant, listing[n].id); }
    assert entries1.Keys == recs1.Keys;
  }

  lemma IndexingDone(recs0: Recs, cfg: Config, listing: seq<Object>, recs: Recs, objs: map<string, Object>,
                     tenant: string)
    requires Indexing(recs0, cfg, listing, |listing|, recs)
    requires IsListing(objs, tenant, listing) && ObjectsOf(recs0) == Outside(objs, tenant)
    ensures ObjectsOf(recs) == objs
  {
    hide Indexed, Indexable;
    forall id | id in recs ensures id in objs && recs[id].obj == objs[id] {
      if id in recs0 { assert ObjectsOf(recs0)[id] == recs0[id].obj; }
    }
    forall id | id in objs ensures id in recs {
      if objs[id].tenant != tenant { assert id in ObjectsOf(recs0); }
    }
  }

  // ---- small facts the methods use --------------------------------------------------------------

  lemma HostElsewhere(entries: Entries, entries': Entries, tenant: string, id: string)
    requires Hosted(RecsOf(entries)) && id in entries && entries[id].rec.obj.tenant != tenant
    requires forall i :: i in entries && entries[i].rec.obj.tenant != tenant ==>
      i in entries' && entries'[i] == entries[i]
    ensures HostOf(entries', entries[id].rec.obj) == HostOf(entries, entries[id].rec.obj)
  {
    assert RecsOf(entries)[id] == entries[id].rec;
  }

  /** Hosts while a tenant is being relinked: entries not in `todo` point to their hosts. */
  ghost predicate HostsLinked(entries: Entries, hosts0: map<string, Entry?>, tenant: string, todo: set<string>)
    reads entries.Values`host
  {
    forall id :: id in entries && id in hosts0 ==>
      var o := entries[id].rec.obj;
      entries[id].host == if id !in todo && o.tenant == tenant && OnSomeHost(o) then HostOf(entries, o) else hosts0[id]
  }

  ghost predicate KeysFrom(recs: Recs, tenant: string, children0: Edges, parents0: Edges, children: Edges,
                           parents: Edges) {
    && (forall h :: h in children ==> h in children0 || Hanging(recs, tenant, h) != {})
    && (forall h :: h in parents ==> h in parents0 || h in recs)
  }

  lemma EmptiedKeys(recs: Recs, tenant: string, children0: Edges, parents0: Edges, ids: set<string>)
    ensures KeysFrom(recs, tenant, children0, parents0, Emptied(children0, ids), Emptied(parents0, ids))
  {}

  lemma NoneDone(recs: Recs, tenant: string)
    ensures TenantIds(recs, tenant) - recs.Keys == {}
  {}

  lemma OneMoreDone(recs: Recs, tenant: string, todo: set<string>, id: string)
    requires id in recs && id in todo
    ensures TenantIds(recs, tenant) - (todo - {id}) ==
      TenantIds(recs, tenant) - todo + if recs[id].obj.tenant == tenant then {id} else {}
    ensures TenantIds(recs, tenant) - todo + {} == TenantIds(recs, tenant) - todo
  {}

  lemma KeysAfterVisit(recs: Recs, byName: map<string, string>, tenant: string, children0: Edges, parents0: Edges,
                       children: Edges, parents: Edges, id: string)
    requires id in recs && recs[id].obj.tenant == tenant
    requires KeysFrom(recs, tenant, children0, parents0, children, parents)
    ensures KeysFrom(recs, tenant, children0, parents0,
                     WithChild(children, recs[id].obj), WithParents(parents, id, ParentsOf(byName, recs[id])))
  {
    hide ParentsOf;
    var o := recs[id].obj;
    if OnSomeHost(o) { assert id in Hanging(recs, tenant, o.hostId); }
  }

  /** Host links as values: each is what it should be. */
  ghost predicate HostsAre(entries: Entries, hosts: map<string, Entry?>) {
    hosts.Keys == entries.Keys && forall id :: id in entries ==> hosts[id] == HostOf(entries, entries[id].rec.obj)
  }

  /** Before relinking a tenant: the other tenants' links are right and the tenant's hosts have none. */
  ghost predicate HostsReady(entries: Entries, hosts: map<string, Entry?>, tenant: string) {
    && hosts.Keys == entries.Keys
    && (forall id :: id in entries && entries[id].rec.obj.tenant != tenant ==>
          hosts[id] == HostOf(entries, entries[id].rec.obj))
    && (forall id :: id in entries && !OnSomeHost(entries[id].rec.obj) ==> hosts[id] == null)
  }

  ghost predicate SameEntriesElsewhere(entries: Entries, entries': Entries, tenant: string) {
    && (forall id :: id in entries && entries[id].rec.obj.tenant != tenant ==>
          id in entries' && entries'[id] == entries[id])
    && (forall id :: id in entries' && entries'[id].rec.obj.tenant != tenant ==>
          id in entries && entries[id] == entries'[id])
  }

  lemma HostsStayReady(entries: Entries, hosts: map<string, Entry?>, entries': Entries, hosts': map<string, Entry?>,
                       tenant: string)
    requires HostsAre(entries, hosts) && Hosted(RecsOf(entries)) && SameEntriesElsewhere(entries, entries', tenant)
    requires hosts'.Keys == entries'.Keys
    requires forall id :: id in entries' ==>
      hosts'[id] == null || (id in entries && entries[id] == entries'[id] && hosts'[id] == hosts[id])
    requires forall id :: id in entries' && entries'[id].rec.obj.tenant != tenant ==>
      id in entries && hosts'[id] == hosts[id]
    ensures HostsReady(entries', hosts', tenant)
  {
    hide Hosted;
    forall id | id in entries' && entries'[id].rec.obj.tenant != tenant
      ensures hosts'[id] == HostOf(entries', entries'[id].rec.obj)
    {
      HostElsewhere(entries, entries', tenant, id);
    }
  }

  lemma HostsAfterPut(entries: Entries, hosts: map<string, Entry?>, entries': Entries, hosts': map<string, Entry?>,
                      id: string, tenant: string)
    requires HostsAre(entries, hosts) && Hosted(RecsOf(entries))
    requires id in entries' && entries' == entries[id := entries'[id]] && hosts'.Keys == entries'.Keys
    requires hosts'[id] == null && entries'[id].rec.obj.tenant == tenant
    requires id in entries ==> entries[id].rec.obj.tenant == tenant
    requires forall x :: x in entries && x != id ==> hosts'[x] == hosts[x]
    ensures HostsReady(entries', hosts', tenant)
  {
    PutStaysInTenantToo(entries, id, entries'[id]);
    HostsStayReady(entries, hosts, entries', hosts', tenant);
  }

  /** Replacing or adding one object keeps names and links right, given that the new set of objects is well formed. */
  lemma PutKeepsTidy(recs: Recs, byName: map<string, string>, r: Rec)
    requires Tidy(recs, byName) && WellFormed(ObjectsOf(recs)[r.obj.id := r.obj])
    ensures var freed := if r.obj.id in recs then byName - {KeyOf(recs[r.obj.id].obj)} else byName;
      Tidy(recs[r.obj.id := r], freed[KeyOf(r.obj) := r.obj.id])
    ensures ObjectsOf(recs[r.obj.id := r]) == ObjectsOf(recs)[r.obj.id := r.obj]
  {
    hide KeyOf, NamesOk, WellFormed, SlashFree;
    var id := r.obj.id;
    assert ObjectsOf(recs[id := r]) == ObjectsOf(recs)[id := r.obj];
    var freed := if id in recs then byName - {KeyOf(recs[id].obj)} else byName;
    if id in recs { NamesAfterDrop(recs, byName, id); }
    assert recs - {id} == if id in recs then recs - {id} else recs;
    assert (recs - {id})[id := r] == recs[id := r];
    KeysDifferAfterPut(recs, r);
    NamesAfterAdd(recs - {id}, freed, r);
  }

  lemma KeysDifferAfterPut(recs: Recs, r: Rec)
    requires WellFormed(ObjectsOf(recs)[r.obj.id := r.obj])
    ensures forall id :: id in recs - {r.obj.id} ==> KeyOf(recs[id].obj) != KeyOf(r.obj)
  {
    hide KeyOf, SlashFree;
    var objs := ObjectsOf(recs)[r.obj.id := r.obj];
    forall id | id in recs - {r.obj.id} ensures KeyOf(recs[id].obj) != KeyOf(r.obj) {
      assert objs[id] == recs[id].obj && objs[r.obj.id] == r.obj;
    }
  }

  lemma PutStaysInTenant(recs: Recs, byName: map<string, string>, children: Edges, parents: Edges, r: Rec)
    requires r.obj.id in recs ==> recs[r.obj.id].obj.tenant == r.obj.tenant
    requires AllEdgesOk(recs, byName, children, parents)
    ensures SameElsewhere(recs, recs[r.obj.id := r], r.obj.tenant)
    ensures NoStrays(recs[r.obj.id := r], children, parents)
    ensures SameEdgesElsewhere(recs, r.obj.tenant, children, parents, children, parents)
  {}

  lemma PutKeepsConfig(flat: Flat, recs: Recs, r: Rec)
    requires FromConfig(flat, recs) && Indexable(r.obj, ConfigOf(flat, r.obj.tenant))
    requires r == Indexed(r.obj, ConfigOf(flat, r.obj.tenant))
    ensures FromConfig(flat, recs[r.obj.id := r])
  {
    hide ConfigOf, Indexable, Indexed;
  }

  lemma PutStaysInTenantToo(entries: Entries, id: string, e: Entry)
    requires id in entries ==> entries[id].rec.obj.tenant == e.rec.obj.tenant
    ensures SameEntriesElsewhere(entries, entries[id := e], e.rec.obj.tenant)
  {}

  ghost predicate SameEdgesElsewhere(recs: Recs, tenant: string, children0: Edges, parents0: Edges, children: Edges,
                                     parents: Edges) {
    forall id :: id in recs && recs[id].obj.tenant != tenant ==>
      At(children, id) == At(children0, id) && At(parents, id) == At(parents0, id)
  }

  ghost predicate KnownAs(entries: Entries, recs: Recs) {
    recs.Keys == entries.Keys && forall id :: id in recs ==> recs[id] == entries[id].rec
  }

  lemma KeysOfRecs(entries: Entries)
    ensures KnownAs(entries, RecsOf(entries))
  {}

  /** What deleting an object takes away: the object and the services on it. */
  ghost function Cascade(objs: map<string, Object>, id: string): set<string> {
    set o | o in objs && (o == id || OnHost(objs[o], id))
  }

  lemma MinusTwice<V>(m: map<string, V>, gone: set<string>, id: string)
    ensures m - gone - {id} == m - (gone + {id})
  {}

  lemma AllInSet(ids: seq<string>, s: set<string>)
    requires AsSet(ids) <= s
    ensures AllIn(ids, s)
  {
    forall i | 0 <= i < |ids| ensures ids[i] in s { assert ids[i] in AsSet(ids); }
  }

  ghost predicate AllIn(ids: seq<string>, s: set<string>) { forall i :: 0 <= i < |ids| ==> ids[i] in s }

  ghost predicate NoRepeats(ids: seq<string>) { forall i, j :: 0 <= i < j < |ids| ==> ids[i] != ids[j] }

  ghost function AsSet(ids: seq<string>): set<string> { set i | i in ids }

  lemma TwiceCounts(ids: seq<string>, i: nat, j: nat)
    requires i < j < |ids| && ids[i] == ids[j]
    ensures multiset(ids)[ids[i]] >= 2
  {
    assert ids == ids[..j] + ids[j..];
    assert ids[i] in ids[..j] && ids[j] == ids[j..][0];
    assert multiset(ids) == multiset(ids[..j]) + multiset(ids[j..]);
    assert multiset(ids[..j])[ids[i]] >= 1 && multiset(ids[j..])[ids[i]] >= 1 by {
      assert ids[i] in multiset(ids[..j]) && ids[i] in multiset(ids[j..]);
    }
  }

  lemma BagOfSet(ids: seq<string>, s: set<string>)
    requires multiset(ids) == multiset(s)
    ensures NoRepeats(ids) && AsSet(ids) == s
  {
    forall i ensures i in ids <==> i in s {
      assert i in ids <==> i in multiset(ids);
    }
    forall i, j | 0 <= i < j < |ids| ensures ids[i] != ids[j] {
      if ids[i] == ids[j] { TwiceCounts(ids, i, j); }
    }
  }

  lemma ServicesAreListed(recs: Recs, byName: map<string, string>, children: Edges, parents: Edges, id: string)
    requires AllEdgesOk(recs, byName, children, parents) && Hosted(recs)
    ensures multiset(At(children, id)) == multiset(ServicesOf(recs, id))
  {
    hide ParentsOf;
    if id !in recs { assert ServicesOf(recs, id) == {}; }
  }

  lemma CascadeIs(recs: Recs, id: string)
    requires Hosted(recs)
    ensures Cascade(ObjectsOf(recs), id) == ServicesOf(recs, id) + if id in recs then {id} else {}
    ensures ServicesOf(recs, id) <= recs.Keys && id !in ServicesOf(recs, id)
    ensures id !in recs ==> ServicesOf(recs, id) == {}
  {}

  lemma RemovalKeepsHosts(recs: Recs, id: string)
    requires Hosted(recs)
    ensures HostsPresent(ObjectsOf(recs - (ServicesOf(recs, id) + {id})))
  {
    var gone := ServicesOf(recs, id) + {id};
    forall x | x in recs - gone && OnSomeHost(recs[x].obj) ensures recs[x].obj.hostId in recs - gone {}
  }

  lemma RemovalKeepsTidy(recs: Recs, byName: map<string, string>, id: string, byName': map<string, string>)
    requires Tidy(recs, byName)
    requires NamesOk(recs - (ServicesOf(recs, id) + {id}), byName')
    ensures Tidy(recs - (ServicesOf(recs, id) + {id}), byName')
  {
    hide NamesOk, WellFormed, ServicesOf, Hosted;
    FromTidy(recs, byName);
    RemovalKeepsHosts(recs, id);
    PartOfWellFormed(ObjectsOf(recs), ObjectsOf(recs - (ServicesOf(recs, id) + {id})));
  }

  /** Removing records of one tenant touches neither the others' records nor their edges. */
  lemma CutStaysInTenant(recs: Recs, children: Edges, parents: Edges, flat: Flat, gone: set<string>, tenant: string)
    requires forall x :: x in gone && x in recs ==> recs[x].obj.tenant == tenant
    requires NoStrays(recs, children, parents) && FromConfig(flat, recs)
    ensures SameElsewhere(recs, recs - gone, tenant)
    ensures NoStrays(recs - gone, children - gone, parents - gone)
    ensures SameEdgesElsewhere(recs, tenant, children, parents, children - gone, parents - gone)
    ensures FromConfig(flat, recs - gone)
  {
    hide Indexed, Indexable, ConfigOf;
  }

  lemma ObjectsAfterRemoval(recs: Recs, id: string)
    requires Hosted(recs)
    ensures ObjectsOf(recs - (ServicesOf(recs, id) + {id})) == ObjectsOf(recs) - Cascade(ObjectsOf(recs), id)
  {
    hide ServicesOf, Cascade;
    CascadeIs(recs, id);
  }

  ghost predicate SubEntries(entries': Entries, entries: Entries) {
    forall id :: id in entries' ==> id in entries && entries'[id] == entries[id]
  }

  lemma RemovalOfCascade(entries: Entries, id: string, tenant: string)
    requires Hosted(RecsOf(entries)) && (id in entries ==> entries[id].rec.obj.tenant == tenant)
    ensures var rest := entries - (ServicesOf(RecsOf(entries), id) + {id});
      && SameEntriesElsewhere(entries, rest, tenant) && SubEntries(rest, entries)
      && RecsOf(rest) == RecsOf(entries) - (ServicesOf(RecsOf(entries), id) + {id})
  {
    hide ServicesOf, Hosted;
    var recs := RecsOf(entries);
    CascadeInTenant(recs, id, tenant);
    assert forall x :: x in recs ==> recs[x] == entries[x].rec;
  }

  lemma RemovalStaysInTenant(recs: Recs, byName: map<string, string>, children: Edges, parents: Edges, flat: Flat,
                             id: string, tenant: string)
    requires Hosted(recs) && (id in recs ==> recs[id].obj.tenant == tenant)
    requires NoStrays(recs, children, parents) && FromConfig(flat, recs)
    ensures var gone := ServicesOf(recs, id) + {id};
      && SameElsewhere(recs, recs - gone, tenant)
      && NoStrays(recs - gone, children - gone, parents - gone)
      && SameEdgesElsewhere(recs, tenant, children, parents, children - gone, parents - gone)
      && FromConfig(flat, recs - gone)
      && ObjectsOf(recs - gone) == ObjectsOf(recs) - Cascade(ObjectsOf(recs), id)
  {
    hide *;
    CascadeInTenant(recs, id, tenant);
    CutStaysInTenant(recs, children, parents, flat, ServicesOf(recs, id) + {id}, tenant);
    ObjectsAfterRemoval(recs, id);
  }

  lemma HostsOfFewer(entries: Entries, hosts: map<string, Entry?>, entries': Entries, hosts': map<string, Entry?>,
                     tenant: string)
    requires HostsAre(entries, hosts) && Hosted(RecsOf(entries)) && SameEntriesElsewhere(entries, entries', tenant)
    requires SubEntries(entries', entries) && hosts'.Keys == entries'.Keys
    requires forall id :: id in entries' && id in hosts ==> hosts'[id] == hosts[id]
    ensures HostsReady(entries', hosts', tenant) && entries'.Values <= entries.Values
  {
    hide HostOf, Hosted, RecsOf;
    forall id | id in entries' && entries'[id].rec.obj.tenant != tenant
      ensures hosts'[id] == HostOf(entries', entries'[id].rec.obj)
    {
      HostElsewhere(entries, entries', tenant, id);
    }
    forall id | id in entries' && !OnSomeHost(entries'[id].rec.obj) ensures hosts'[id] == null {
      NoHost(entries, entries[id].rec.obj);
    }
  }

  lemma NoHost(entries: Entries, o: Object)
    requires !OnSomeHost(o)
    ensures HostOf(entries, o) == null
  {}

  lemma CascadeInTenant(recs: Recs, id: string, tenant: string)
    requires Hosted(recs) && (id in recs ==> recs[id].obj.tenant == tenant)
    ensures forall x :: x in ServicesOf(recs, id) + {id} && x in recs ==> recs[x].obj.tenant == tenant
  {}

  lemma CascadeIsListed(services: seq<string>, s: set<string>, id: string, found: bool)
    requires multiset(services) == multiset(s) && id !in s
    ensures multiset(services + if found then [id] else []) == multiset(s + if found then {id} else {})
  {
    if found { AppendToBag(services, multiset{}, s, id); } else { assert services + [] == services && s + {} == s; }
  }

  lemma RemovalOfEntriesOnly(entries: Entries, gone: set<string>)
    ensures RecsOf(entries - gone) == RecsOf(entries) - gone
  {}

  lemma SubIsKept(entries1: Entries, entries: Entries, id: string, e: Entry)
    requires SubEntries(entries1, entries) && id !in entries1
    ensures SubEntries(entries1, entries[id := e])
  {}

  lemma ConfigAfterIndexing(flat: Flat, recs1: Recs, tenant: string, listing: seq<Object>, recs: Recs)
    requires FromConfig(flat, recs1) && Indexing(recs1, ConfigOf(flat, tenant), listing, |listing|, recs)
    requires forall i :: 0 <= i < |listing| ==> listing[i].tenant == tenant
    ensures FromConfig(flat, recs)
  {
    hide ConfigOf, Indexable, Indexed;
    forall i | 0 <= i < |listing| && Indexable(listing[i], ConfigOf(flat, tenant))
      ensures Indexed(listing[i], ConfigOf(flat, tenant)).obj == listing[i]
    {}
  }

  lemma IndexingStaysInTenant(recs0: Recs, recs1: Recs, cfg: Config, tenant: string, listing: seq<Object>, recs: Recs,
                              children: Edges, parents: Edges)
    requires SameElsewhere(recs0, recs1, tenant) && Indexing(recs1, cfg, listing, |listing|, recs)
    requires forall i :: 0 <= i < |listing| ==> listing[i].tenant == tenant
    requires NoStrays(recs1, children, parents)
    ensures SameElsewhere(recs0, recs, tenant) && NoStrays(recs, children, parents)
  {
    hide Indexable, Indexed;
    forall i | 0 <= i < |listing| && Indexable(listing[i], cfg) ensures Indexed(listing[i], cfg).obj == listing[i] {}
  }

  lemma HostsOfMore(entries1: Entries, hosts1: map<string, Entry?>, entries: Entries, hosts: map<string, Entry?>,
                    tenant: string)
    requires HostsReady(entries1, hosts1, tenant) && Hosted(RecsOf(entries1)) && SubEntries(entries1, entries)
    requires hosts.Keys == entries.Keys
    requires forall id :: id in entries1 && id in hosts ==> hosts[id] == hosts1[id]
    requires forall id :: id in entries && id !in entries1 ==> hosts[id] == null && entries[id].rec.obj.tenant == tenant
    ensures HostsReady(entries, hosts, tenant)
  {
    forall id | id in entries && entries[id].rec.obj.tenant != tenant
      ensures hosts[id] == HostOf(entries, entries[id].rec.obj)
    {
      assert RecsOf(entries1)[id] == entries1[id].rec;
    }
  }

  lemma DropKeepsRecords(recs: Recs, flat: Flat, tenant: string)
    requires FromConfig(flat, recs)
    ensures var rest := WithoutTenantRecs(recs, tenant);
      && SameElsewhere(recs, rest, tenant) && FromConfig(flat, rest)
      && ObjectsOf(rest) == Outside(ObjectsOf(recs), tenant)
  {
    hide Indexable, Indexed, ConfigOf;
  }

  lemma DropKeepsEdges(recs: Recs, children: Edges, parents: Edges, tenant: string)
    requires NoStrays(recs, children, parents)
    ensures
      var ids := TenantIds(recs, tenant);
      var children', parents' := Emptied(children, ids), Emptied(parents, ids);
      && NoStrays(WithoutTenantRecs(recs, tenant), children', parents')
      && SameEdgesElsewhere(recs, tenant, children, parents, children', parents')
  {}

  lemma DropStaysInTenant(recs: Recs, children: Edges, parents: Edges, flat: Flat, tenant: string)
    requires NoStrays(recs, children, parents) && FromConfig(flat, recs)
    ensures var rest := WithoutTenantRecs(recs, tenant);
      && SameElsewhere(recs, rest, tenant) && FromConfig(flat, rest)
      && NoStrays(rest, Emptied(children, TenantIds(recs, tenant)), Emptied(parents, TenantIds(recs, tenant)))
      && SameEdgesElsewhere(recs, tenant, children, parents,
                            Emptied(children, TenantIds(recs, tenant)), Emptied(parents, TenantIds(recs, tenant)))
      && ObjectsOf(rest) == Outside(ObjectsOf(recs), tenant)
  {
    hide *;
    DropKeepsRecords(recs, flat, tenant);
    DropKeepsEdges(recs, children, parents, tenant);
  }

  function WithoutTenantEntries(entries: Entries, tenant: string): Entries {
    map id | id in entries && entries[id].rec.obj.tenant != tenant :: entries[id]
  }

  lemma DropOfEntries(entries: Entries, tenant: string)
    ensures var rest := WithoutTenantEntries(entries, tenant);
      && SubEntries(rest, entries) && SameEntriesElsewhere(entries, rest, tenant)
      && RecsOf(rest) == WithoutTenantRecs(RecsOf(entries), tenant)
      && (forall id :: id in rest ==> rest[id].rec.obj.tenant != tenant)
      && rest == entries - TenantIds(RecsOf(entries), tenant)
  {}

  lemma NoTenantIsOutside(recs: Recs, objs: map<string, Object>, tenant: string)
    requires WellFormed(objs) && ObjectsOf(recs) == Outside(objs, tenant)
    ensures WellFormed(ObjectsOf(recs)) && Hosted(recs)
  {
    hide KeyOf, SlashFree;
    var part := Outside(objs, tenant);
    PartOfWellFormed(objs, part);
    assert forall id :: id in recs ==> part[id] == recs[id].obj;
  }

  /** Records of other tenants do not depend on this tenant's configuration. */
  lemma ConfigKeptOutside(flat: Flat, flat': Flat, tenant: string, recs: Recs, objs: map<string, Object>)
    requires FromConfig(flat, recs) && SameConfigElsewhere(flat, flat', tenant)
    requires WellFormed(objs) && ObjectsOf(recs) == Outside(objs, tenant)
    ensures FromConfig(flat', recs)
  {
    hide ConfigOf, Indexable, Indexed, KeyOf, SlashFree;
    forall id | id in recs ensures SlashFree(recs[id].obj.tenant) && recs[id].obj.tenant != tenant {
      assert ObjectsOf(recs)[id] == recs[id].obj && id in Outside(objs, tenant);
    }
  }

  // ---- the store and its history ----------------------------------------------------------------

  /** What the store holds: objects by id, and each tenant's configuration. */
  datatype World = World(objs: map<string, Object>, settings: map<string, Settings>)

  /** A tenant's objects in the order the store lists them. */
  type Listings = map<string, seq<Object>>

  ghost predicate Readable(objs: map<string, Object>, tenant: string, s: Settings, listing: seq<Object>) {
    IsListing(objs, tenant, listing) && forall i :: 0 <= i < |listing| ==> Indexable(listing[i], AsConfig(s))
  }

  ghost predicate WorldOk(w: World) {
    && WellFormed(w.objs)
    && (forall t :: t in w.settings ==> SlashFree(t))
    && (forall id :: id in w.objs ==> w.objs[id].tenant in w.settings)
  }

  datatype Event =
    | Saved(o: Object)
    | Deleted(tenant: string, id: string)
    | Reloaded(tenant: string, settings: Settings, listing: seq<Object>, objs: map<string, Object>)

  ghost predicate Possible(w: World, e: Event) {
    match e
    case Saved(o) =>
      && WellFormed(w.objs[o.id := o]) && (o.id in w.objs ==> w.objs[o.id].tenant == o.tenant)
      && o.tenant in w.settings && Indexable(o, AsConfig(w.settings[o.tenant]))
    case Deleted(tenant, id) => id in w.objs ==> w.objs[id].tenant == tenant
    case Reloaded(tenant, s, listing, objs) =>
      && SlashFree(tenant) && WellFormed(objs) && Outside(objs, tenant) == Outside(w.objs, tenant)
      && Readable(objs, tenant, s, listing)
  }

  ghost function Next(w: World, e: Event): World {
    match e
    case Saved(o) => w.(objs := w.objs[o.id := o])
    case Deleted(_, id) => w.(objs := w.objs - Cascade(w.objs, id))
    case Reloaded(tenant, s, _, objs) => World(objs, w.settings[tenant := s])
  }

  ghost predicate AllPossible(w: World, events: seq<Event>)
    decreases |events|
  {
    events == [] || (Possible(w, events[0]) && AllPossible(Next(w, events[0]), events[1..]))
  }

  ghost function NextAll(w: World, events: seq<Event>): World
    decreases |events|
  {
    if events == [] then w else NextAll(Next(w, events[0]), events[1..])
  }

  lemma DeletionKeepsWellFormed(objs: map<string, Object>, id: string)
    requires WellFormed(objs)
    ensures WellFormed(objs - Cascade(objs, id))
  {
    hide KeyOf, SlashFree;
    var rest := objs - Cascade(objs, id);
    PartOfWellFormed(objs, rest);
  }

  lemma ReloadKeepsTenants(w: World, tenant: string, s: Settings, objs: map<string, Object>)
    requires WorldOk(w) && Outside(objs, tenant) == Outside(w.objs, tenant)
    ensures forall id :: id in objs ==> objs[id].tenant in w.settings[tenant := s]
  {
    hide WellFormed, SlashFree;
    forall id | id in objs && objs[id].tenant != tenant ensures id in w.objs && w.objs[id] == objs[id] {
      assert id in Outside(objs, tenant) && Outside(objs, tenant)[id] == objs[id];
      assert id in Outside(w.objs, tenant);
    }
  }

  lemma WorldStaysOk(w: World, e: Event)
    requires WorldOk(w) && Possible(w, e)
    ensures WorldOk(Next(w, e))
  {
    hide WellFormed, SlashFree, Outside, Cascade, Readable;
    match e
    case Saved(o) =>
    case Deleted(_, id) => DeletionKeepsWellFormed(w.objs, id);
    case Reloaded(tenant, s, _, objs) => ReloadKeepsTenants(w, tenant, s, objs);
  }

  ghost predicate SettingsStored(flat: Flat, settings: map<string, Settings>) {
    forall t :: t in settings ==> ConfigOf(flat, t) == AsConfig(settings[t])
  }

  // ---- all tenants ------------------------------------------------------------------------------

  /** The store can be read tenant by tenant. */
  ghost predicate Loadables(w: World, tenants: seq<string>, listings: Listings) {
    && WorldOk(w) && NoRepeats(tenants) && AsSet(tenants) == w.settings.Keys
    && (forall t :: t in tenants ==> t in listings && Readable(w.objs, t, w.settings[t], listings[t]))
  }

  ghost function OfTenants(objs: map<string, Object>, tenants: set<string>): map<string, Object> {
    map id | id in objs && objs[id].tenant in tenants :: objs[id]
  }

  lemma OneMoreTenant(objs: map<string, Object>, tenants: set<string>, t: string, listing: seq<Object>)
    requires WellFormed(objs) && IsListing(objs, t, listing) && t !in tenants
    ensures var more := OfTenants(objs, tenants + {t});
      WellFormed(more) && IsListing(more, t, listing) && Outside(more, t) == OfTenants(objs, tenants)
  {
    hide KeyOf, SlashFree;
    PartOfWellFormed(objs, OfTenants(objs, tenants + {t}));
  }

  lemma NoneOfTenant(recs: Recs, objs: map<string, Object>, tenants: set<string>, t: string)
    requires ObjectsOf(recs) == OfTenants(objs, tenants) && t !in tenants
    ensures forall id :: id in recs ==> recs[id].obj.tenant != t
    ensures SameElsewhere(recs, recs, t)
  {
    forall id | id in recs ensures recs[id].obj.tenant != t {
      assert id in OfTenants(objs, tenants) && OfTenants(objs, tenants)[id] == recs[id].obj;
    }
  }

  lemma AllTenants(objs: map<string, Object>, tenants: set<string>)
    requires forall id :: id in objs ==> objs[id].tenant in tenants
    ensures OfTenants(objs, tenants) == objs
  {}

  lemma ConfigAfterDrop(flat: Flat, flat': Flat, tenant: string, recs: Recs)
    requires FromConfig(flat, recs) && SameConfigElsewhere(flat, flat', tenant)
    requires forall id :: id in recs ==> SlashFree(recs[id].obj.tenant)
    ensures FromConfig(flat', WithoutTenantRecs(recs, tenant))
  {
    hide ConfigOf, Indexable, Indexed, SlashFree;
  }

  lemma ReadableMeans(objs: map<string, Object>, tenant: string, s: Settings, listing: seq<Object>)
    requires Readable(objs, tenant, s, listing)
    ensures IsListing(objs, tenant, listing) && forall i :: 0 <= i < |listing| ==> Indexable(listing[i], AsConfig(s))
  {}

  lemma SameConfigTwice(flat: Flat, flat1: Flat, flat2: Flat, tenant: string)
    requires SameConfigElsewhere(flat, flat1, tenant) && SameConfigElsewhere(flat1, flat2, tenant)
    ensures SameConfigElsewhere(flat, flat2, tenant)
  {
    hide ConfigOf, SlashFree;
  }

  /** While all tenants are being loaded: the first n are stored, the others have nothing yet. */
  ghost predicate FirstStored(flat: Flat, w: World, tenants: seq<string>, n: nat) {
    forall i :: 0 <= i < |tenants| && tenants[i] in w.settings ==>
      ConfigOf(flat, tenants[i]) == if i < n then AsConfig(w.settings[tenants[i]]) else Config(map[], map[], map[])
  }

  lemma OneMoreStored(flat: Flat, flat': Flat, w: World, tenants: seq<string>, listings: Listings, n: nat)
    requires Loadables(w, tenants, listings) && n < |tenants| && tenants[n] in w.settings
    requires FirstStored(flat, w, tenants, n)
    requires ConfigOf(flat', tenants[n]) == AsConfig(w.settings[tenants[n]])
    requires SameConfigElsewhere(flat, flat', tenants[n])
    ensures FirstStored(flat', w, tenants, n + 1)
  {
    hide ConfigOf, AsConfig, SlashFree, WellFormed, Readable;
  }

  lemma NothingStored(w: World, tenants: seq<string>)
    ensures FirstStored(Flat(map[], map[], map[]), w, tenants, 0)
  {}

  lemma AllStored(flat: Flat, w: World, tenants: seq<string>, listings: Listings)
    requires Loadables(w, tenants, listings) && FirstStored(flat, w, tenants, |tenants|)
    ensures SettingsStored(flat, w.settings)
  {
    hide ConfigOf, AsConfig, SlashFree, WellFormed, Readable;
    forall t | t in w.settings ensures ConfigOf(flat, t) == AsConfig(w.settings[t]) {
      assert t in AsSet(tenants);
      var i :| 0 <= i < |tenants| && tenants[i] == t;
    }
  }

  lemma NextTenant(w: World, tenants: seq<string>, listings: Listings, n: nat)
    requires Loadables(w, tenants, listings) && n < |tenants|
    ensures var t := tenants[n];
      && t in w.settings && t in listings && SlashFree(t)
      && (forall i :: 0 <= i < |listings[t]| ==> Indexable(listings[t][i], AsConfig(w.settings[t])))
    ensures var t, more := tenants[n], OfTenants(w.objs, AsSet(tenants[..n + 1]));
      && t !in AsSet(tenants[..n])
      && WellFormed(more) && IsListing(more, t, listings[t])
      && Outside(more, t) == OfTenants(w.objs, AsSet(tenants[..n]))
  {
    hide SlashFree, WellFormed, Indexable, AsConfig, IsListing, OfTenants, Outside;
    var t := tenants[n];
    assert t in AsSet(tenants) && t in tenants;
    assert t !in AsSet(tenants[..n]);
    assert AsSet(tenants[..n + 1]) == AsSet(tenants[..n]) + {t};
    OneMoreTenant(w.objs, AsSet(tenants[..n]), t, listings[t]);
  }

  lemma NothingLoaded(objs: map<string, Object>)
    ensures OfTenants(objs, {}) == map[] && WellFormed(map[])
    ensures Tidy(map[], map[]) && AllEdgesOk(map[], map[], map[], map[])
  {}

  lemma SettingsAfterReload(flat: Flat, flat': Flat, w: World, e: Event)
    requires e.Reloaded? && WorldOk(w) && SettingsStored(flat, w.settings) && SameConfigElsewhere(flat, flat', e.tenant)
    requires ConfigOf(flat', e.tenant) == AsConfig(e.settings)
    ensures SettingsStored(flat', Next(w, e).settings)
  {
    hide ConfigOf, AsConfig, SlashFree, WellFormed;
  }
}
