/** The bundle endpoints at work on the store (internal/api/bundles.go): diffing, planning, applying, pruning and
    exporting, step by step, each tied to what it should compute. */
module BundleApi {
  import opened Basics
  import opened BundleModel
  import opened BundleStore
  import opened BundleRuns
  import opened BundleConvergence
  import opened BundleExports
  import opened BundlePlans

  datatype PlanAction = PlanAction(act: Action, key: Key)

  // ---- diffs ------------------------------------------------------------------------------------

  /** Compares two specifications field by field over the keys of either. */
  method SpecDiff(was: Body, now: Body) returns (diff: Diff)
    ensures diff == DiffSpecs(was, now)
  {
    var keys := was.Keys + now.Keys;
    diff := map[];
    var todo := keys;
    while todo != {}
      invariant todo <= keys
      invariant diff == map k | k in keys - todo && Lookup(was, k) != Lookup(now, k) :: (Lookup(was, k), Lookup(now, k))
    {
      var k :| k in todo;
      todo := todo - {k};
      if Lookup(was, k) != Lookup(now, k) { diff := diff[k := (Lookup(was, k), Lookup(now, k))]; }
    }
  }

  /** Compares a stored document, less its envelope, with what a bundle document sets. */
  method DocDiff(stored: Body, d: Doc) returns (diff: Diff)
    ensures diff == DiffDocs(stored, d)
  {
    hide Desired;
    var cur, des := Strip(stored), Desired(d);
    var keys := cur.Keys + des.Keys;
    diff := map[];
    var todo := keys;
    while todo != {}
      invariant todo <= keys
      invariant diff == map k | k in keys - todo && Lookup(des, k) != Null && Lookup(cur, k) != Lookup(des, k) ::
                          (Lookup(cur, k), Lookup(des, k))
    {
      var k :| k in todo;
      todo := todo - {k};
      if Lookup(des, k) != Null && Lookup(cur, k) != Lookup(des, k) {
        diff := diff[k := (Lookup(cur, k), Lookup(des, k))];
      }
    }
  }

  // ---- plans as sequences -----------------------------------------------------------------------

  function Decodable(env: Env, s: Store, docs: seq<Doc>): bool {
    forall d :: d in docs ==> PlanOne(env, s, d).Set?
  }

  /** The creations and updates a plan lists, in the order of the documents. */
  function PlanDocs(env: Env, s: Store, docs: seq<Doc>): seq<PlanAction> {
    if docs == [] then []
    else
      var n := |docs| - 1;
      PlanDocs(env, s, docs[..n]) +
      match PlanOne(env, s, docs[n])
      case Unset => []
      case Set(act) => if act == Nothing then [] else [PlanAction(act, KeyOf(docs[n]))]
  }

  function OfAction(plan: seq<PlanAction>, act: Action): seq<PlanAction> {
    if plan == [] then []
    else OfAction(plan[..|plan| - 1], act) + if plan[|plan| - 1].act == act then [plan[|plan| - 1]] else []
  }

  /** Creations, then updates, then deletions, each kept in order. */
  function SortPlan(plan: seq<PlanAction>): seq<PlanAction> {
    OfAction(plan, Create) + OfAction(plan, Update) + OfAction(plan, Delete)
  }

  function Deletions(keys: seq<Key>): seq<PlanAction> {
    seq(|keys|, i requires 0 <= i < |keys| => PlanAction(Delete, keys[i]))
  }

  lemma {:induction false} OfActionJoins(a: seq<PlanAction>, b: seq<PlanAction>, act: Action)
    ensures OfAction(a + b, act) == OfAction(a, act) + OfAction(b, act)
  {
    if b == [] {
      assert a + b == a;
    } else {
      assert (a + b)[..|a + b| - 1] == a + b[..|b| - 1];
      OfActionJoins(a, b[..|b| - 1], act);
    }
  }

  lemma {:induction false} OfActionOfPure(plan: seq<PlanAction>, act: Action, other: Action)
    requires forall i :: 0 <= i < |plan| ==> plan[i].act == act
    ensures OfAction(plan, other) == if act == other then plan else []
  {
    if plan != [] { OfActionOfPure(plan[..|plan| - 1], act, other); }
  }

  lemma {:induction false} DocsPlanNoDeletion(env: Env, s: Store, docs: seq<Doc>)
    ensures OfAction(PlanDocs(env, s, docs), Delete) == []
  {
    hide PlanOne, KeyOf;
    if docs != [] {
      var n := |docs| - 1;
      DocsPlanNoDeletion(env, s, docs[..n]);
      NeverPlansDelete(env, s, docs[n]);
      var rest := match PlanOne(env, s, docs[n])
        case Unset => []
        case Set(act) => if act == Nothing then [] else [PlanAction(act, KeyOf(docs[n]))];
      OfActionJoins(PlanDocs(env, s, docs[..n]), rest, Delete);
    }
  }

  lemma NeverPlansDelete(env: Env, s: Store, d: Doc)
    ensures PlanOne(env, s, d) != Set(Delete)
  {
    hide DiffDocs, DiffSpecs, Desired;
  }

  lemma {:induction false} OfOfAction(plan: seq<PlanAction>, act: Action, other: Action)
    ensures OfAction(OfAction(plan, act), other) == if act == other then OfAction(plan, act) else []
  {
    if plan != [] {
      var rest, last := plan[..|plan| - 1], plan[|plan| - 1];
      OfOfAction(rest, act, other);
      OfActionJoins(OfAction(rest, act), if last.act == act then [last] else [], other);
    }
  }

  lemma SortKeepsDeletions(plan: seq<PlanAction>)
    ensures OfAction(SortPlan(plan), Delete) == OfAction(plan, Delete)
  {
    hide OfAction;
    var creates, updates, deletes := OfAction(plan, Create), OfAction(plan, Update), OfAction(plan, Delete);
    OfActionJoins(creates + updates, deletes, Delete);
    OfActionJoins(creates, updates, Delete);
    OfOfAction(plan, Create, Delete);
    OfOfAction(plan, Update, Delete);
    OfOfAction(plan, Delete, Delete);
  }

  /** The deletions of a sorted plan are the scheduled ones, in order. */
  lemma DeletionsOfPlan(env: Env, s: Store, docs: seq<Doc>, keys: seq<Key>)
    ensures OfAction(SortPlan(PlanDocs(env, s, docs) + Deletions(keys)), Delete) == Deletions(keys)
  {
    hide PlanDocs, OfAction, SortPlan;
    SortKeepsDeletions(PlanDocs(env, s, docs) + Deletions(keys));
    DocsPlanNoDeletion(env, s, docs);
    OfActionJoins(PlanDocs(env, s, docs), Deletions(keys), Delete);
    OfActionOfPure(Deletions(keys), Delete, Delete);
  }

  class Api {
    const env: Env
    var store: Store

    constructor (env: Env, store: Store)
      ensures this.env == env && this.store == store
    {
      this.env, this.store := env, store;
    }

    // ---- planning -------------------------------------------------------------------------------

    method PlanDoc(d: Doc) returns (act: Maybe<Action>)
      ensures act == PlanOne(env, store, d)
    {
      hide DiffDocs, DiffSpecs, Desired;
      if d.kind == "Host" || d.kind == "Service" {
        if env.decode(d.spec).Unset? { return Unset; }
        var spec := env.decode(d.spec).value;
        if d.kind == "Service" && HostKey(d.meta.host) !in store { return Set(Create); }
        var k := KeyOf(d);
        if k !in store || !store[k].Object? { return Set(Create); }
        var row := store[k].row;
        var diff := SpecDiff(row.spec, spec);
        var same := OrSlash(d.meta.folder) == row.folder && d.meta.labels == Set(row.labels) && diff == map[];
        return Set(if same then Nothing else Update);
      }
      if d.kind !in RESOURCE_KINDS { return Set(Nothing); }
      var current := Stored(store, KeyOf(d));
      if current.Unset? { return Set(Create); }
      var diff := DocDiff(current.value.doc, d);
      return Set(if diff == map[] then Nothing else Update);
    }

    // ---- exporting ------------------------------------------------------------------------------

    method ExportSome(docs0: seq<Doc>, ghost keys0: seq<Key>, ghost listed: set<Key>, some: set<Key>)
      returns (docs: seq<Doc>, ghost keys: seq<Key>)
      requires Lists(env, store, docs0, keys0, listed) && some <= store.Keys && listed !! some
      ensures Lists(env, store, docs, keys, listed + some)
    {
      hide ExportOne;
      docs, keys := docs0, keys0;
      var todo := some;
      assert listed + (some - todo) == listed;
      while todo != {}
        invariant todo <= some && Lists(env, store, docs, keys, listed + (some - todo))
      {
        var k :| k in todo;
        assert k !in AsSet(keys);
        assert AsSet(keys + [k]) == AsSet(keys) + {k};
        assert listed + (some - (todo - {k})) == listed + (some - todo) + {k};
        todo := todo - {k};
        docs, keys := docs + [ExportOne(env, k, store[k])], keys + [k];
      }
      assert some - {} == some;
    }

    /** Lists objects, then resources kind by kind; roles are left out. */
    method ExportBundle() returns (docs: seq<Doc>, ghost keys: seq<Key>)
      requires StoreOk(store)
      ensures Lists(env, store, docs, keys, Exported(store)) && IsExport(env, store, docs)
    {
      hide ExportOne, Lists, ExportsOf;
      var objects := set k | k in store && !k.ResourceKey?;
      NothingListed();
      docs, keys := ExportSome([], [], {}, objects);
      var kinds := RESOURCE_KINDS - {"Role"};
      var todo := kinds;
      ghost var listed := objects;
      assert {} + objects == objects;
      while todo != {}
        invariant todo <= kinds && Lists(env, store, docs, keys, listed)
        invariant listed == set k | k in store && (k.ResourceKey? ==> k.kind in kinds - todo)
      {
        var kind :| kind in todo;
        var some := set k | k in store && k.ResourceKey? && k.kind == kind;
        docs, keys := ExportSome(docs, keys, listed, some);
        listed := listed + some;
        todo := todo - {kind};
      }
      assert listed == Exported(store);
      ListedIsOnce(env, store, docs, keys, listed);
    }

    lemma NothingListed()
      ensures Lists(env, store, [], [], {})
    {}

    // ---- planning, continued --------------------------------------------------------------------

    /** Whether pruning would take an entry. */
    predicate Unwanted(k: Key, desired: set<string>, sel: Maybe<Labels -> bool>) reads this`store {
      Text(k) !in desired && (sel.Set? ==> sel.value(LabelsAt(env, store, k)))
    }

    /** The exported entries the bundle does not contain and the selector matches. */
    method ListPrunable(desired: set<string>, sel: Maybe<Labels -> bool>) returns (pruned: seq<Key>)
      requires StoreOk(store)
      ensures Once(pruned) && AsSet(pruned) == set k | k in Exported(store) && Unwanted(k, desired, sel)
    {
      hide ExportOne, Unwanted, KeyOf, Ident, Lists, Exported;
      var current, keys := ExportBundle();
      pruned := [];
      ListsMean(current, keys, Exported(store));
      for i := 0 to |current|
        invariant Once(pruned) && AsSet(pruned) == set k | k in AsSet(keys[..i]) && Unwanted(k, desired, sel)
      {
        var cur := current[i];
        ExportIsRecognised(keys[i], desired, sel);
        assert AsSet(keys[..i + 1]) == AsSet(keys[..i]) + {keys[i]};
        assert keys[i] !in AsSet(keys[..i]);
        assert AsSet(pruned + [keys[i]]) == AsSet(pruned) + {keys[i]};
        if Ident(cur) !in desired && (sel.Set? ==> sel.value(LabelsOf(cur))) {
          pruned := pruned + [KeyOf(cur)];
        }
      }
      assert keys[..|current|] == keys;
    }

    lemma ListsMean(docs: seq<Doc>, keys: seq<Key>, meant: set<Key>)
      requires Lists(env, store, docs, keys, meant)
      ensures |docs| == |keys| && Once(keys) && AsSet(keys) == meant
      ensures forall i :: 0 <= i < |keys| ==> keys[i] in store && docs[i] == ExportOne(env, keys[i], store[keys[i]])
    {}

    lemma ExportIsRecognised(k: Key, desired: set<string>, sel: Maybe<Labels -> bool>)
      requires StoreOk(store) && k in store
      ensures var d := ExportOne(env, k, store[k]);
        KeyOf(d) == k && (Ident(d) !in desired && (sel.Set? ==> sel.value(LabelsOf(d))) <==> Unwanted(k, desired, sel))
    {
      hide Text, Ident;
      ExportKeepsKey(env, store, k);
      IdentIsText(ExportOne(env, k, store[k]));
      assert "labels" !in ENVELOPE;
    }

    /** Compares the bundle with the store; with pruning also lists what the bundle lacks, in no particular order. */
    method ComputePlan(docs: seq<Doc>, prune: bool, sel: Maybe<Labels -> bool>)
      returns (plan: Maybe<seq<PlanAction>>, ghost pruned: seq<Key>)
      requires StoreOk(store)
      ensures plan.Set? <==> Decodable(env, store, docs)
      ensures plan.Set? ==> plan.value == SortPlan(PlanDocs(env, store, docs) + Deletions(pruned))
      ensures plan.Set? ==> Once(pruned) && AsSet(pruned) == if prune then ToPrune(env, store, docs, sel) else {}
    {
      hide PlanOne, Ident, SortPlan, Exported, LabelsAt, Text, KeyOf, StoreOk;
      var listed: seq<PlanAction> := [];
      var desired: set<string> := {};
      for n := 0 to |docs|
        invariant listed == PlanDocs(env, store, docs[..n]) && desired == Idents(docs[..n])
        invariant Decodable(env, store, docs[..n])
      {
        assert docs[..n + 1] == docs[..n] + [docs[n]] && docs[..n + 1][..n] == docs[..n];
        desired := desired + {Ident(docs[n])};
        var act := PlanDoc(docs[n]);
        if act.Unset? { return Unset, []; }
        if act.value != Nothing { listed := listed + [PlanAction(act.value, KeyOf(docs[n]))]; }
      }
      assert docs[..|docs|] == docs;
      pruned := [];
      if prune {
        var prunable := ListPrunable(desired, sel);
        pruned := prunable;
        listed := listed + Deletions(prunable);
      } else {
        assert listed + Deletions([]) == listed;
      }
      plan := Set(SortPlan(listed));
    }

    // ---- applying -------------------------------------------------------------------------------

    method ApplyDoc(d: Doc, stamp: Stamp) returns (out: Outcome)
      modifies this`store
      ensures (store, out) == ApplyOne(env, old(store), d, stamp)
    {
      hide DiffDocs, DiffSpecs, Desired, Put;
      var k := KeyOf(d);
      if d.kind == "Host" || d.kind == "Service" {
        if env.decode(d.spec).Unset? { return Failed(BadSpec); }
        var spec := env.decode(d.spec).value;
        if d.kind == "Service" && HostKey(d.meta.host) !in store { return Failed(UnknownHost); }
        if k in store && store[k].Object? {
          var row := store[k].row;
          var diff := SpecDiff(row.spec, spec);
          if OrSlash(d.meta.folder) == row.folder && LabelsOf(d) == row.labels && diff == map[] { return NoChange; }
        }
        if !env.objectOk(store, k, RowOf(d, spec)) { return Failed(Rejected); }
        out := if k in store then Updated else Created;
        store := store[k := Object(RowOf(d, spec))];
        return;
      }
      if d.kind !in RESOURCE_KINDS { return NoChange; }
      var body := Desired(d)["name" := Str(d.meta.name)];
      if !env.docOk(d.kind, body) { return Failed(Rejected); }
      var current := Stored(store, k);
      if current.Set? {
        var diff := DocDiff(current.value.doc, d);
        if diff == map[] { return NoChange; }
      }
      out := if k in store then Updated else Created;
      store := store[k := Resource(Put(env, current, d.meta.name, body, stamp))];
    }

    method DeleteByPlan(k: Key) returns (ok: bool)
      modifies this`store
      ensures (store, ok) == DeleteOne(old(store), k)
    {
      if k.ServiceKey? && HostKey(k.host) !in store { return false; }
      if k.ResourceKey? && k.kind !in RESOURCE_KINDS { return false; }
      if k !in store { return false; }
      ok := true;
      if k.HostKey? {
        store := store - {k} - Under(store, k.name);
      } else {
        store := store - {k} - {};
      }
    }

    /** Applies the documents in kind order, then prunes what the plan scheduled before. A document that cannot be
        decoded refuses the bundle; a failure while applying stops it and nothing is pruned. */
    method ApplyBundle(docs: seq<Doc>, prune: bool, sel: Maybe<Labels -> bool>, stamps: nat -> Stamp)
      returns (refused: bool, outcomes: seq<Outcome>)
      requires StoreOk(store)
      modifies this`store
      ensures refused <==> !Decodable(env, old(store), docs)
      ensures refused ==> store == old(store)
      ensures !refused ==>
        var r := ApplyAll(env, old(store), Ordered(docs), stamps);
        outcomes == r.outcomes && store == AfterBundle(env, old(store), Ordered(docs), prune, sel, stamps)
    {
      hide *;
      var plan, pruned := ComputePlan(docs, prune, sel);
      outcomes := [];
      if plan.Unset? { return true, []; }
      refused := false;
      ghost var s := store;
      var sorted := Ordered(docs);
      NothingApplied(env, s, sorted, stamps);
      AfterBundleIs(env, s, sorted, prune, sel, stamps);
      for n := 0 to |sorted|
        invariant Applied(store, outcomes) == ApplyAll(env, s, sorted[..n], stamps)
        invariant !Stopped(Applied(store, outcomes))
      {
        ApplyOneMore(env, s, sorted, stamps, n);
        var out := ApplyDoc(sorted[n], stamps(n));
        outcomes := outcomes + [out];
        if out.Failed? {
          StopsHere(env, s, sorted, stamps, n + 1);
          return;
        }
      }
      assert sorted[..|sorted|] == sorted;
      AppliedKeepsStore(env, s, sorted, stamps);
      ghost var applied := store;
      DeletionsOfPlan(env, s, docs, pruned);
      var actions := plan.value;
      NoDeletionsYet(applied, actions);
      for i := 0 to |actions|
        invariant store == DeleteAll(applied, DeletedKeys(actions[..i]))
      {
        DeleteOneMore(applied, actions, i);
        if actions[i].act == Delete {
          var _ := DeleteByPlan(actions[i].key);
        }
      }
      assert actions[..|actions|] == actions;
      PrunedInAnyOrder(env, s, docs, prune, sel, stamps, actions, pruned, applied);
    }
  }

  /** The keys a plan deletes, in order. */
  function DeletedKeys(plan: seq<PlanAction>): seq<Key> {
    if plan == [] then []
    else DeletedKeys(plan[..|plan| - 1]) + if plan[|plan| - 1].act == Delete then [plan[|plan| - 1].key] else []
  }

  lemma NoDeletionsYet(s: Store, plan: seq<PlanAction>)
    ensures DeleteAll(s, DeletedKeys(plan[..0])) == s
  {}

  lemma DeleteOneMore(s: Store, plan: seq<PlanAction>, i: nat)
    requires i < |plan|
    ensures DeleteAll(s, DeletedKeys(plan[..i + 1])) ==
      if plan[i].act == Delete then DeleteOne(DeleteAll(s, DeletedKeys(plan[..i])), plan[i].key).0
      else DeleteAll(s, DeletedKeys(plan[..i]))
  {
    hide DeleteOne;
    assert plan[..i + 1][..i] == plan[..i];
    var keys := DeletedKeys(plan[..i]);
    if plan[i].act == Delete {
      assert (keys + [plan[i].key])[..|keys|] == keys;
    } else {
      assert keys + [] == keys;
    }
  }

  lemma {:induction false} DeletedKeysAre(plan: seq<PlanAction>)
    ensures |DeletedKeys(plan)| == |OfAction(plan, Delete)|
    ensures forall i :: 0 <= i < |DeletedKeys(plan)| ==> DeletedKeys(plan)[i] == OfAction(plan, Delete)[i].key
  {
    if plan != [] { DeletedKeysAre(plan[..|plan| - 1]); }
  }

  lemma PrunedInAnyOrder(env: Env, s: Store, docs: seq<Doc>, prune: bool, sel: Maybe<Labels -> bool>,
                         stamps: nat -> Stamp,
                         plan: seq<PlanAction>, pruned: seq<Key>, applied: Store)
    requires applied == ApplyAll(env, s, Ordered(docs), stamps).store && StoreOk(applied)
    requires OfAction(plan, Delete) == Deletions(pruned)
    requires AsSet(pruned) == if prune then ToPrune(env, s, docs, sel) else {}
    ensures DeleteAll(applied, DeletedKeys(plan)) ==
      if prune then ApplyAndPrune(env, s, Ordered(docs), sel, stamps) else applied
  {
    hide ApplyAll, Ordered, DeleteAll, StoreOk, Text, Ident, LabelsAt, Exported, OfAction;
    DeletedKeysAre(plan);
    assert DeletedKeys(plan) == pruned;
    DeletionOrderIsIrrelevant(applied, pruned);
    NothingFalls(applied);
    SortingKeepsDocs(docs);
    assert Idents(Ordered(docs)) == Idents(docs);
  }

  lemma AfterBundleIs(env: Env, s: Store, docs: seq<Doc>, prune: bool, sel: Maybe<Labels -> bool>, stamps: nat -> Stamp)
    ensures var r := ApplyAll(env, s, docs, stamps);
      AfterBundle(env, s, docs, prune, sel, stamps) ==
        if Stopped(r) || !prune then r.store else ApplyAndPrune(env, s, docs, sel, stamps)
  {}

  lemma NothingApplied(env: Env, s: Store, docs: seq<Doc>, stamps: nat -> Stamp)
    ensures ApplyAll(env, s, docs[..0], stamps) == Applied(s, []) && !Stopped(Applied(s, []))
  {}

  lemma ApplyOneMore(env: Env, s: Store, docs: seq<Doc>, stamps: nat -> Stamp, n: nat)
    requires n < |docs| && !Stopped(ApplyAll(env, s, docs[..n], stamps))
    ensures var r := ApplyAll(env, s, docs[..n], stamps);
      var (s', out) := ApplyOne(env, r.store, docs[n], stamps(n));
      && ApplyAll(env, s, docs[..n + 1], stamps) == Applied(s', r.outcomes + [out])
      && (Stopped(Applied(s', r.outcomes + [out])) <==> out.Failed?)
  {
    hide ApplyOne;
    assert docs[..n + 1][..n] == docs[..n];
  }

  lemma {:induction false} StopsHere(env: Env, s: Store, docs: seq<Doc>, stamps: nat -> Stamp, n: nat)
    requires n <= |docs| && Stopped(ApplyAll(env, s, docs[..n], stamps))
    ensures ApplyAll(env, s, docs, stamps) == ApplyAll(env, s, docs[..n], stamps)
    decreases |docs| - n
  {
    hide ApplyOne;
    if n < |docs| {
      assert docs[..n + 1][..n] == docs[..n];
      StopsHere(env, s, docs, stamps, n + 1);
    } else {
      assert docs[..n] == docs;
    }
  }
}
