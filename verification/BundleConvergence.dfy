/** What a bundle run leads to (internal/api/bundles.go): pruning, convergence to the bundle, what a plan says,
    and re-applying an export. */
module BundleConvergence {
  import opened Basics
  import opened BundleModel
  import opened BundleStore
  import opened BundleRuns

  // ---- deleting ---------------------------------------------------------------------------------

  function Under(s: Store, host: string): set<Key> { set k | k in s && k.ServiceKey? && k.host == host }

  /** Deletes one planned entry; a host takes its services with it. */
  function DeleteOne(s: Store, k: Key): (Store, bool) {
    if k.ServiceKey? && HostKey(k.host) !in s then (s, false)
    else if k.ResourceKey? && k.kind !in RESOURCE_KINDS then (s, false)
    else if k !in s then (s, false)
    else (s - {k} - (if k.HostKey? then Under(s, k.name) else {}), true)
  }

  function DeleteAll(s: Store, keys: seq<Key>): Store {
    if keys == [] then s else DeleteOne(DeleteAll(s, keys[..|keys| - 1]), keys[|keys| - 1]).0
  }

  predicate Falls(k: Key, gone: set<Key>) { k in gone || (k.ServiceKey? && HostKey(k.host) in gone) }

  function Left(s: Store, gone: set<Key>): Store { map k | k in s && !Falls(k, gone) :: s[k] }

  function AsSet(keys: seq<Key>): set<Key> { set k | k in keys }

  lemma LeftIsOk(s: Store, gone: set<Key>)
    requires StoreOk(s)
    ensures StoreOk(Left(s, gone))
  {}

  lemma DeleteOneIs(s: Store, k: Key)
    requires StoreOk(s)
    ensures DeleteOne(s, k).0 == Left(s, {k})
  {}

  lemma LeftTwice(s: Store, a: set<Key>, b: set<Key>)
    ensures Left(Left(s, a), b) == Left(s, a + b)
  {}

  /** In whatever order the planned entries are deleted, what goes is those entries and the services of deleted
      hosts. */
  lemma {:induction false} DeletionOrderIsIrrelevant(s: Store, keys: seq<Key>)
    requires StoreOk(s)
    ensures DeleteAll(s, keys) == Left(s, AsSet(keys))
  {
    hide StoreOk, DeleteOne, Left;
    if keys == [] {
      NothingFalls(s);
      assert AsSet(keys) == {};
    } else {
      var n := |keys| - 1;
      DeletionOrderIsIrrelevant(s, keys[..n]);
      LeftIsOk(s, AsSet(keys[..n]));
      DeleteOneIs(Left(s, AsSet(keys[..n])), keys[n]);
      LeftTwice(s, AsSet(keys[..n]), {keys[n]});
      assert keys == keys[..n] + [keys[n]];
      assert AsSet(keys) == AsSet(keys[..n]) + {keys[n]};
    }
  }

  lemma NothingFalls(s: Store)
    ensures Left(s, {}) == s
  {}

  // ---- pruning ----------------------------------------------------------------------------------

  /** Roles are not exported. */
  predicate Exportable(k: Key) { !(k.ResourceKey? && k.kind == "Role") }

  function Exported(s: Store): set<Key> { set k | k in s && Exportable(k) }

  function Idents(docs: seq<Doc>): set<string> { set d | d in docs :: Ident(d) }

  function ShownLabels(env: Env, fields: map<string, Json>): Labels { map l | l in fields :: env.show(fields[l]) }

  /** The labels an exported entry carries. */
  function LabelsAt(env: Env, s: Store, k: Key): Labels {
    if k !in s then map[]
    else match s[k]
      case Object(row) => row.labels
      case Resource(res) =>
        if Lookup(res.doc, "labels").Obj? then ShownLabels(env, Lookup(res.doc, "labels").fields) else map[]
  }

  /** Entries whose identity string the bundle does not contain and that the selector, if any, matches. */
  function ToPrune(env: Env, s: Store, docs: seq<Doc>, sel: Maybe<Labels -> bool>): set<Key> {
    set k | k in Exported(s) && Text(k) !in Idents(docs) && (sel.Set? ==> sel.value(LabelsAt(env, s, k)))
  }

  lemma ResourceKindsArePlain(kind: string)
    requires kind in RESOURCE_KINDS
    ensures PlainKind(kind)
  {}

  predicate AllKnown(docs: seq<Doc>) { forall d :: d in docs ==> Known(d.kind) }

  lemma SupportedIsKnown(kind: string)
    requires Supported(kind)
    ensures Known(kind)
  {
    assert KIND_ORDER[15] == "Host" && KIND_ORDER[16] == "Service";
  }

  lemma AllSupportedAreKnown(docs: seq<Doc>)
    requires AllSupported(docs)
    ensures AllKnown(docs)
  {
    hide Known, Supported;
    forall d | d in docs ensures Known(d.kind) { SupportedIsKnown(d.kind); }
  }

  lemma KnownIsProper(d: Doc)
    requires Known(d.kind)
    ensures Proper(KeyOf(d))
  {
    hide SlashFree, Known;
    KnownKindsAreSlashFree(d.kind);
  }

  /** The bundle's identity strings name exactly its entries, up to services whose host and name join to the same
      text. */
  lemma IdentsAre(docs: seq<Doc>, k: Key)
    requires AllKnown(docs) && Proper(k)
    ensures k in KeysOf(docs) ==> Text(k) in Idents(docs)
    ensures Text(k) in Idents(docs) && !k.ServiceKey? ==> k in KeysOf(docs)
  {
    hide Ident, Text, KeyOf, Proper, Known;
    if k in KeysOf(docs) {
      var d :| d in docs && KeyOf(d) == k;
      IdentIsText(d);
      assert Ident(d) in Idents(docs);
    }
    if Text(k) in Idents(docs) {
      var d :| d in docs && Ident(d) == Text(k);
      IdentIsText(d);
      KnownIsProper(d);
      SameTextIff(KeyOf(d), k);
    }
  }

  // ---- convergence ------------------------------------------------------------------------------

  /** A stored service that survives pruning although the bundle does not contain it: its host and name join to the
      text of another service that the bundle contains, and its host stays. */
  ghost predicate Stale(s: Store, docs: seq<Doc>, k: Key) {
    k in s && k.ServiceKey? && k !in KeysOf(docs) && Text(k) in Idents(docs) && HostKey(k.host) in KeysOf(docs)
  }

  function Wanted(docs: seq<Doc>): set<Key> { set k | k in KeysOf(docs) && Exportable(k) }

  lemma WantedStays(env: Env, s: Store, docs: seq<Doc>, k: Key, sel: Maybe<Labels -> bool>)
    requires AllSupported(docs) && WithHosts(docs) && k in KeysOf(docs)
    ensures !Falls(k, ToPrune(env, s, docs, sel))
  {
    hide Text, Ident, PlainKind, LabelsAt, Known, Supported;
    AllSupportedAreKnown(docs);
    var d :| d in docs && KeyOf(d) == k;
    KnownIsProper(d);
    IdentsAre(docs, k);
    if k.ServiceKey? { IdentsAre(docs, HostKey(k.host)); }
  }

  lemma UnwantedStaysIffStale(env: Env, s: Store, docs: seq<Doc>, k: Key)
    requires StoreOk(s) && AllSupported(docs) && k in Exported(s) && k !in KeysOf(docs)
    ensures !Falls(k, ToPrune(env, s, docs, Unset)) <==> Stale(s, docs, k)
  {
    hide Text, Ident, KeyOf, PlainKind, Known, Supported;
    AllSupportedAreKnown(docs);
    if k.ResourceKey? { ResourceKindsArePlain(k.kind); }
    IdentsAre(docs, k);
    if k.ServiceKey? { IdentsAre(docs, HostKey(k.host)); }
  }

  /** After applying a bundle and pruning the rest, the exported identities are the bundle's own (roles aside),
      exactly when no stored service is stale. Hosts may take along services that are scheduled for deletion. */
  lemma ConvergesIff(env: Env, s: Store, docs: seq<Doc>, stamps: nat -> Stamp)
    requires StoreOk(s) && AllSupported(docs) && WithHosts(docs) && !Stopped(ApplyAll(env, s, docs, stamps))
    ensures Exported(Left(ApplyAll(env, s, docs, stamps).store, ToPrune(env, s, docs, Unset))) == Wanted(docs) <==>
      forall k :: !Stale(s, docs, k)
  {
    hide ApplyAll, AllSupported, WithHosts, KeysOf, StoreOk, ToPrune, Stale, Falls, Stopped, Exportable;
    var applied := ApplyAll(env, s, docs, stamps).store;
    AppliedKeys(env, s, docs, stamps);
    var gone := ToPrune(env, s, docs, Unset);
    forall k ensures k in Exported(Left(applied, gone)) <==> k in Wanted(docs) || Stale(s, docs, k) {
      if k in KeysOf(docs) { WantedStays(env, s, docs, k, Unset); NotStale(s, docs, k); }
      else if k in Exported(s) { UnwantedStaysIffStale(env, s, docs, k); }
      else { NotStale(s, docs, k); }
    }
    forall k | Stale(s, docs, k) ensures k !in Wanted(docs) { NotStale(s, docs, k); }
  }

  lemma NotStale(s: Store, docs: seq<Doc>, k: Key)
    ensures k in KeysOf(docs) || k !in Exported(s) ==> !Stale(s, docs, k)
  {}

  /** Host names without slashes leave nothing stale. */
  lemma SlashFreeHostsConverge(s: Store, docs: seq<Doc>)
    requires AllSupported(docs)
    requires forall k :: k in s && k.ServiceKey? ==> SlashFree(k.host)
    requires forall d :: d in docs ==> SlashFree(d.meta.host)
    ensures forall k :: !Stale(s, docs, k)
  {
    hide Text, Ident, PlainKind, Known, Supported;
    forall k ensures !Stale(s, docs, k) {
      if k in s && k.ServiceKey? && Text(k) in Idents(docs) {
        var d :| d in docs && Ident(d) == Text(k);
        IdentIsText(d);
        SupportedIsKnown(d.kind);
        KnownIsProper(d);
        TextIsFaithful(KeyOf(d), k);
      }
    }
  }

  function HostDoc(name: string, spec: Body): Doc { Doc("Host", Meta(name, "", "", Unset), spec, map[]) }

  function ServiceDoc(host: string, name: string, spec: Body): Doc {
    Doc("Service", Meta(name, host, "", Unset), spec, map[])
  }

  /** Hosts a and a/b with service c on the latter. */
  function Joined(a: string, b: string, c: string, spec: Body): seq<Doc> {
    [HostDoc(a, spec), HostDoc(a + "/" + b, spec), ServiceDoc(a + "/" + b, c, spec)]
  }

  lemma JoinedIsValid(a: string, b: string, c: string, spec: Body)
    requires forall t | t in {'\n', '\t'} :: t !in a && t !in b && t !in c
    ensures Valid(Joined(a, b, c, spec)) && AllSupported(Joined(a, b, c, spec)) && WithHosts(Joined(a, b, c, spec))
  {
    var docs := Joined(a, b, c, spec);
    assert Ident(docs[0])[0] == 'H' && Ident(docs[1])[0] == 'H' && Ident(docs[2])[0] == 'S';
    assert |Ident(docs[0])| < |Ident(docs[1])|;
    assert docs[1] in docs && KeyOf(docs[1]) == HostKey(a + "/" + b);
  }

  /** A whole family of stale services: host a keeps its service b/c although the bundle only has c on host a/b. */
  lemma JoinedLeavesStale(a: string, b: string, c: string, spec: Body, row: Row)
    ensures var s: Store := map[HostKey(a) := Object(row), ServiceKey(a, b + "/" + c) := Object(row)];
      StoreOk(s) && Stale(s, Joined(a, b, c, spec), ServiceKey(a, b + "/" + c))
  {
    var docs := Joined(a, b, c, spec);
    var k := ServiceKey(a, b + "/" + c);
    assert docs[0] in docs && KeyOf(docs[0]) == HostKey(a);
    assert k !in KeysOf(docs) by {
      forall d | d in docs ensures KeyOf(d) != k {
        assert |a + "/" + b| > |a|;
      }
    }
    assert Text(k) == "Service/" + a + "/" + b + "/" + c == Ident(docs[2]);
    assert docs[2] in docs && Ident(docs[2]) in Idents(docs);
  }
}
