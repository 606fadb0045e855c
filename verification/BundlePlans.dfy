/** What plans promise (internal/api/bundles.go): repeated runs, and documents absent from the plan. */
module BundlePlans {
  import opened Basics
  import opened BundleModel
  import opened BundleStore
  import opened BundleRuns
  import opened BundleConvergence

  /** A run with pruning: apply, then delete what the plan scheduled before the run began. */
  function ApplyAndPrune(env: Env, s: Store, docs: seq<Doc>, sel: Maybe<Labels -> bool>, stamps: nat -> Stamp): Store {
    Left(ApplyAll(env, s, docs, stamps).store, ToPrune(env, s, docs, sel))
  }

  // ---- running again ----------------------------------------------------------------------------

  lemma PrunedOnceIsPruned(env: Env, s: Store, docs: seq<Doc>, stamps: nat -> Stamp)
    requires StoreOk(s) && AllSupported(docs) && WithHosts(docs) && !Stopped(ApplyAll(env, s, docs, stamps))
    ensures ToPrune(env, ApplyAndPrune(env, s, docs, Unset, stamps), docs, Unset) == {}
  {
    hide ApplyAll, AllSupported, WithHosts, KeysOf, StoreOk, Stopped, Idents, Text, Exportable, AllKnown;
    AllSupportedAreKnown(docs);
    var applied := ApplyAll(env, s, docs, stamps).store;
    AppliedKeys(env, s, docs, stamps);
    AppliedKeepsStore(env, s, docs, stamps);
    forall k | k in Left(applied, ToPrune(env, s, docs, Unset)) && Exportable(k) ensures Text(k) in Idents(docs) {
      if k in KeysOf(docs) {
        StoredIsProper(applied, k);
        IdentsAre(docs, k);
      }
    }
  }

  lemma StoredIsProper(s: Store, k: Key)
    requires StoreOk(s) && k in s
    ensures Proper(k)
  {
    hide PlainKind, RESOURCE_KINDS;
    if k.ResourceKey? { ResourceKindsArePlain(k.kind); }
  }

  lemma InForceAfterPrune(env: Env, s: Store, gone: set<Key>, d: Doc)
    requires !Falls(KeyOf(d), gone)
    ensures InForce(env, Left(s, gone), d) <==> InForce(env, s, d)
  {
    hide DiffDocs, SameRow, Desired;
  }

  /** A whole run, pruning included, repeated: nothing is written and nothing is left to delete. */
  lemma RunningAgainIsIdle(env: Env, s: Store, docs: seq<Doc>, stamps: nat -> Stamp, stamps': nat -> Stamp)
    requires Faithful(env) && StoreOk(s) && AllSupported(docs) && WithHosts(docs) && DistinctKeys(docs)
    requires !Stopped(ApplyAll(env, s, docs, stamps)) && forall d :: d in docs ==> !SetsEnvelope(d)
    ensures var once := ApplyAndPrune(env, s, docs, Unset, stamps);
      NothingHappens(once, docs, ApplyAll(env, once, docs, stamps')) && ToPrune(env, once, docs, Unset) == {}
  {
    hide ApplyAll, AllSupported, WithHosts, KeysOf, StoreOk, Stopped, ToPrune, InForce, SetsEnvelope, Faithful, Falls,
         DistinctKeys, Left, KeyOf;
    var applied := ApplyAll(env, s, docs, stamps).store;
    var once := ApplyAndPrune(env, s, docs, Unset, stamps);
    PrunedOnceIsPruned(env, s, docs, stamps);
    NothingHappensIff(env, once, docs, stamps');
    forall i | 0 <= i < |docs| ensures InForce(env, once, docs[i]) {
      EachIsInForceIff(env, s, docs, stamps, i);
      assert KeyOf(docs[i]) in KeysOf(docs) by { KeyIsThere(docs, i); }
      WantedStays(env, s, docs, KeyOf(docs[i]), Unset);
      InForceAfterPrune(env, applied, ToPrune(env, s, docs, Unset), docs[i]);
    }
  }

  lemma KeyIsThere(docs: seq<Doc>, i: nat)
    requires i < |docs|
    ensures KeyOf(docs[i]) in KeysOf(docs)
  {}

  lemma SortedAlike(env: Env, s: Store, docs: seq<Doc>)
    ensures ToPrune(env, s, Ordered(docs), Unset) == ToPrune(env, s, docs, Unset)
    ensures Wanted(Ordered(docs)) == Wanted(docs) && (forall k :: Stale(s, Ordered(docs), k) <==> Stale(s, docs, k))
    ensures AllSupported(Ordered(docs)) == AllSupported(docs) && WithHosts(Ordered(docs)) == WithHosts(docs)
  {
    hide Ordered, Text, Ident, KeyOf, Supported;
    SortingKeepsDocs(docs);
    assert Idents(Ordered(docs)) == Idents(docs);
  }

  /** Applying a validated bundle that brings its services' hosts never meets an unknown host, whatever else fails;
      completed and pruned, it leaves exactly the bundle's entries exported, unless a stored service is stale. */
  lemma BundleConverges(env: Env, s: Store, docs: seq<Doc>, stamps: nat -> Stamp)
    requires StoreOk(s) && Valid(docs) && AllSupported(docs) && WithHosts(docs)
    ensures forall o :: o in ApplyAll(env, s, Ordered(docs), stamps).outcomes ==> o != Failed(UnknownHost)
    ensures !Stopped(ApplyAll(env, s, Ordered(docs), stamps)) ==>
      (Exported(ApplyAndPrune(env, s, Ordered(docs), Unset, stamps)) == Wanted(docs) <==>
       forall k :: !Stale(s, docs, k))
  {
    hide ApplyAll, Ordered, WithHosts, AllSupported, Stale, Wanted, Exported, ToPrune, Left, Stopped, HostsFirst;
    SortingPutsHostsFirst(docs);
    HostsAreAlwaysKnown(env, s, Ordered(docs), stamps);
    SortedAlike(env, s, docs);
    if !Stopped(ApplyAll(env, s, Ordered(docs), stamps)) { ConvergesIff(env, s, Ordered(docs), stamps); }
  }

  /** The same bundle again, pruning included, writes nothing and finds nothing to delete. */
  lemma BundleIsIdempotent(env: Env, s: Store, docs: seq<Doc>, stamps: nat -> Stamp, stamps': nat -> Stamp)
    requires Faithful(env) && StoreOk(s) && Valid(docs) && AllSupported(docs) && WithHosts(docs)
    requires !Stopped(ApplyAll(env, s, Ordered(docs), stamps)) && forall d :: d in docs ==> !SetsEnvelope(d)
    ensures var once := ApplyAndPrune(env, s, Ordered(docs), Unset, stamps);
      && NothingHappens(once, Ordered(docs), ApplyAll(env, once, Ordered(docs), stamps'))
      && ToPrune(env, once, docs, Unset) == {}
  {
    hide ApplyAll, Ordered, Valid, WithHosts, AllSupported, ApplyAndPrune, ToPrune, DistinctKeys, SetsEnvelope,
         Faithful, StoreOk, Stopped;
    ValidGivesDistinctKeys(docs);
    SortingKeepsDistinct(docs);
    SortingKeepsDocs(docs);
    SortedAlike(env, s, docs);
    SortedAlike(env, ApplyAndPrune(env, s, Ordered(docs), Unset, stamps), docs);
    RunningAgainIsIdle(env, s, Ordered(docs), stamps, stamps');
  }

  // ---- plans ------------------------------------------------------------------------------------

  datatype Action = Nothing | Create | Update | Delete

  /** Compares labels as given: a document without labels differs even from an entry with none. */
  function PlanObject(env: Env, s: Store, d: Doc): Maybe<Action> {
    var k := KeyOf(d);
    match env.decode(d.spec)
    case Unset => Unset
    case Set(spec) =>
      if d.kind == "Service" && HostKey(d.meta.host) !in s then Set(Create)
      else if k !in s || !s[k].Object? then Set(Create)
      else
        var row := s[k].row;
        var same := OrSlash(d.meta.folder) == row.folder && d.meta.labels == Set(row.labels);
        if same && DiffSpecs(row.spec, spec) == map[] then Set(Nothing) else Set(Update)
  }

  function PlanOne(env: Env, s: Store, d: Doc): Maybe<Action> {
    if IsObject(d) then PlanObject(env, s, d)
    else if d.kind !in RESOURCE_KINDS then Set(Nothing)
    else if Stored(s, KeyOf(d)).Unset? then Set(Create)
    else if DiffDocs(Stored(s, KeyOf(d)).value.doc, d) == map[] then Set(Nothing)
    else Set(Update)
  }

  /** A resource document passes validation; objects are validated only when they are about to be written. */
  predicate Accepted(env: Env, d: Doc) {
    !IsObject(d) && d.kind in RESOURCE_KINDS ==> env.docOk(d.kind, Desired(d)["name" := Str(d.meta.name)])
  }

  /** What the plan leaves out is in force exactly when validation accepts it. */
  lemma AbsentIsInForceIff(env: Env, s: Store, d: Doc)
    requires StoreOk(s) && PlanOne(env, s, d) == Set(Nothing)
    ensures InForce(env, s, d) <==> Accepted(env, d)
  {
    hide DiffDocs, DiffSpecs, Desired;
  }

  /** The plan announces an update that applying does not make exactly for hosts and services in force whose
      document has no labels at all. */
  lemma PlanOverstatesIff(env: Env, s: Store, d: Doc)
    requires StoreOk(s)
    ensures PlanOne(env, s, d) == Set(Update) && InForce(env, s, d) <==>
      IsObject(d) && d.meta.labels.Unset? && InForce(env, s, d)
  {
    hide DiffDocs, DiffSpecs, Desired;
  }

  /** Such a plan: a stored host without labels, and a document that says the same and leaves labels out. */
  lemma UnlabelledHostIsPlanned(env: Env, name: string, folder: string, spec: Body)
    requires Faithful(env) && env.decode(spec) == Set(spec) && folder != ""
    ensures var s: Store := map[HostKey(name) := Object(Row(folder, map[], spec))];
      var d := Doc("Host", Meta(name, "", folder, Unset), spec, map[]);
      StoreOk(s) && PlanOne(env, s, d) == Set(Update) && InForce(env, s, d)
  {
    NoSpecDiffIff(spec, spec);
  }

  lemma {:induction false} InForceDocIsSkipped(env: Env, s: Store, docs: seq<Doc>, stamps: nat -> Stamp, i: nat)
    requires StoreOk(s) && DistinctKeys(docs) && i < |docs| && KeyOf(docs[i]) in s && InForce(env, s, docs[i])
    requires !Stopped(ApplyAll(env, s, docs, stamps))
    ensures var r := ApplyAll(env, s, docs, stamps);
      && |r.outcomes| == |docs| && r.outcomes[i] == NoChange
      && KeyOf(docs[i]) in r.store && r.store[KeyOf(docs[i])] == s[KeyOf(docs[i])]
  {
    hide ApplyOne, KeyOf, InForce, StoreOk, Supported;
    var n := |docs| - 1;
    var k := KeyOf(docs[i]);
    var r := ApplyAll(env, s, docs[..n], stamps);
    AppliedKeys(env, s, docs[..n], stamps);
    AppliesOnlyItself(env, r.store, docs[n], stamps(n));
    if i < n {
      assert forall a, b :: 0 <= a < b < n ==> KeyOf(docs[..n][a]) != KeyOf(docs[..n][b]);
      InForceDocIsSkipped(env, s, docs[..n], stamps, i);
      assert KeyOf(docs[i]) != KeyOf(docs[n]);
    } else {
      LastKeyIsNew(docs);
      AppliedElsewhere(env, s, docs[..n], stamps, k);
      AppliedKeepsKeys(env, s, docs[..n], stamps);
      InForceIsLocal(env, s, r.store, docs[i]);
      NothingToDoIff(env, r.store, docs[i], stamps(n));
    }
  }

  lemma LastKeyIsNew(docs: seq<Doc>)
    requires DistinctKeys(docs) && docs != []
    ensures KeyOf(docs[|docs| - 1]) !in KeysOf(docs[..|docs| - 1])
  {
    hide KeyOf;
  }

  /** Applying writes nothing for it: it is in force, or the plan leaves it out. */
  predicate LeftAlone(env: Env, s: Store, d: Doc) { InForce(env, s, d) || PlanOne(env, s, d) == Set(Nothing) }

  lemma LeftAloneIsNotWritten(env: Env, s: Store, d: Doc, stamp: Stamp)
    requires StoreOk(s) && LeftAlone(env, s, d)
    ensures ApplyOne(env, s, d, stamp).0 == s
  {
    hide DiffDocs, DiffSpecs, Desired;
    NothingToDoIff(env, s, d, stamp);
    AppliesOnlyItself(env, s, d, stamp);
  }

  /** It stays so while other entries come and its own does not change. */
  lemma LeftAloneIsLocal(env: Env, s: Store, s': Store, d: Doc)
    requires StoreOk(s) && s.Keys <= s'.Keys && LeftAlone(env, s, d)
    requires KeyOf(d) in s' <==> KeyOf(d) in s
    requires KeyOf(d) in s ==> s'[KeyOf(d)] == s[KeyOf(d)]
    ensures LeftAlone(env, s', d)
  {
    hide DiffDocs, DiffSpecs, SameRow, Desired;
    InForceIsLocal(env, s, s', d);
    if IsObject(d) { assert d.kind == "Service" && KeyOf(d) in s ==> HostKey(d.meta.host) in s; }
  }

  /** A document that is in force or absent from the plan is untouched by the run, whether the run completes or stops
      at a failure, its own rejection included. */
  lemma {:induction false} UntouchedByRun(env: Env, s: Store, docs: seq<Doc>, stamps: nat -> Stamp, i: nat)
    requires StoreOk(s) && DistinctKeys(docs) && i < |docs| && LeftAlone(env, s, docs[i])
    ensures var k, after := KeyOf(docs[i]), ApplyAll(env, s, docs, stamps).store;
      (k in after <==> k in s) && (k in s ==> after[k] == s[k])
  {
    hide ApplyOne, KeyOf, LeftAlone, StoreOk, Supported;
    var n := |docs| - 1;
    var k := KeyOf(docs[i]);
    var r := ApplyAll(env, s, docs[..n], stamps);
    AppliesOnlyItself(env, r.store, docs[n], stamps(n));
    if i < n {
      assert forall a, b :: 0 <= a < b < n ==> KeyOf(docs[..n][a]) != KeyOf(docs[..n][b]);
      UntouchedByRun(env, s, docs[..n], stamps, i);
      assert KeyOf(docs[i]) != KeyOf(docs[n]);
    } else {
      LastKeyIsNew(docs);
      AppliedElsewhere(env, s, docs[..n], stamps, k);
      AppliedKeepsKeys(env, s, docs[..n], stamps);
      AppliedKeepsStore(env, s, docs[..n], stamps);
      LeftAloneIsLocal(env, s, r.store, docs[i]);
      LeftAloneIsNotWritten(env, r.store, docs[i], stamps(n));
    }
  }

  /** The store after applying a bundle: nothing is pruned once a document has failed. */
  function AfterBundle(env: Env, s: Store, docs: seq<Doc>, prune: bool, sel: Maybe<Labels -> bool>,
                       stamps: nat -> Stamp): Store {
    var r := ApplyAll(env, s, docs, stamps);
    if Stopped(r) || !prune then r.store else ApplyAndPrune(env, s, docs, sel, stamps)
  }

  /** The entry goes with its host. */
  predicate LosesHost(k: Key, gone: set<Key>) { k.ServiceKey? && HostKey(k.host) in gone }

  /** An entry whose document is in force or absent from the plan is the same after the whole operation, and it is lost
      only as a service whose host a completed run prunes. */
  lemma UntouchedIff(env: Env, s: Store, docs: seq<Doc>, prune: bool, sel: Maybe<Labels -> bool>, stamps: nat -> Stamp,
                     i: nat)
    requires StoreOk(s) && AllKnown(docs) && DistinctKeys(docs) && i < |docs|
    requires KeyOf(docs[i]) in s && LeftAlone(env, s, docs[i])
    ensures var k, after := KeyOf(docs[i]), AfterBundle(env, s, docs, prune, sel, stamps);
      && (k in after ==> after[k] == s[k])
      && (k in after <==>
          !(prune && !Stopped(ApplyAll(env, s, docs, stamps)) && LosesHost(k, ToPrune(env, s, docs, sel))))
  {
    hide ApplyAll, LeftAlone, AllKnown, DistinctKeys, StoreOk, Text, Ident, Supported, Stopped, KeyOf;
    var k := KeyOf(docs[i]);
    UntouchedByRun(env, s, docs, stamps, i);
    StoredIsProper(s, k);
    KeyIsThere(docs, i);
    IdentsAre(docs, k);
  }
}
