/** What exports preserve (internal/api/bundles.go): the documents an export lists, whether they can be uploaded again,
    and what applying them does. */
module BundleExports {
  import opened Basics
  import opened BundleModel
  import opened BundleStore
  import opened BundleRuns
  import opened BundleConvergence
  import opened BundlePlans

  /** The document an entry is exported as. */
  function ExportOne(env: Env, k: Key, item: Item): Doc {
    match item
    case Object(row) =>
      Doc(if k.HostKey? then "Host" else "Service",
          Meta(k.name, if k.ServiceKey? then k.host else "", row.folder, Set(row.labels)), row.spec, map[])
    case Resource(res) =>
      var body := Strip(res.doc);
      var labelled := Lookup(body, "labels").Obj?;
      Doc(if k.ResourceKey? then k.kind else "",
          Meta(k.name, "", "", if labelled then Set(ShownLabels(env, Lookup(body, "labels").fields)) else Unset),
          if labelled then body - {"labels"} else body, map[])
  }

  /** Labels, where a document has any, are strings. */
  predicate StringLabels(doc: Body) {
    Lookup(doc, "labels").Obj? ==> forall l :: l in doc["labels"].fields ==> doc["labels"].fields[l].Str?
  }

  lemma ExportKeepsKey(env: Env, s: Store, k: Key)
    requires StoreOk(s) && k in s
    ensures KeyOf(ExportOne(env, k, s[k])) == k && Supported(ExportOne(env, k, s[k]).kind)
    ensures IsObject(ExportOne(env, k, s[k])) <==> !k.ResourceKey?
  {
    StoredIsProper(s, k);
  }

  lemma ShownIsSameIff(env: Env, fields: map<string, Json>)
    requires Faithful(env)
    ensures LabelJson(ShownLabels(env, fields)) == Obj(fields) <==> forall l :: l in fields ==> fields[l].Str?
  {
    var shown := LabelJson(ShownLabels(env, fields)).fields;
    assert shown.Keys == fields.Keys;
    forall l | l in fields ensures shown[l] == fields[l] <==> fields[l].Str? {
      if fields[l].Str? { assert env.show(Str(fields[l].str)) == fields[l].str; }
    }
    if forall l :: l in fields ==> fields[l].Str? { assert shown == fields; }
  }

  /** What an exported resource asks for is what is stored, labels excepted. */
  lemma ExportDesires(env: Env, k: Key, res: Res, f: string)
    ensures var d := ExportOne(env, k, Resource(res));
      && (f != "labels" ==> Lookup(Desired(d), f) == Lookup(Strip(res.doc), f))
      && Lookup(Desired(d), "labels") ==
           if Lookup(res.doc, "labels").Obj? then
             (if Lookup(res.doc, "labels").fields == map[] then Null
              else LabelJson(ShownLabels(env, Lookup(res.doc, "labels").fields)))
           else Lookup(res.doc, "labels")
  {
    var d := ExportOne(env, k, Resource(res));
    assert "labels" !in ENVELOPE;
    assert Lookup(Strip(res.doc), "labels") == Lookup(res.doc, "labels");
    if Lookup(res.doc, "labels").Obj? {
      var fields := Lookup(res.doc, "labels").fields;
      assert ShownLabels(env, fields).Keys == fields.Keys;
      assert ShownLabels(env, fields) == map[] <==> fields == map[];
    }
  }

  lemma ExportedResourceIff(env: Env, k: Key, res: Res)
    requires Faithful(env)
    ensures DiffDocs(res.doc, ExportOne(env, k, Resource(res))) == map[] <==> StringLabels(res.doc)
  {
    hide ExportOne, Desired, ShownLabels, Faithful;
    var d := ExportOne(env, k, Resource(res));
    var diff := DiffDocs(res.doc, d);
    assert Lookup(Strip(res.doc), "labels") == Lookup(res.doc, "labels") by { assert "labels" !in ENVELOPE; }
    ExportDesires(env, k, res, "labels");
    forall f | f != "labels" ensures f !in diff { ExportDesires(env, k, res, f); }
    if Lookup(res.doc, "labels").Obj? { ShownIsSameIff(env, Lookup(res.doc, "labels").fields); }
    assert diff == map[] <==> "labels" !in diff by {
      if diff != map[] { var f :| f in diff; }
    }
  }

  /** Re-applying an exported entry finds it in force exactly when its labels are strings and validation accepts it. */
  lemma ExportedIsInForceIff(env: Env, s: Store, k: Key)
    requires Faithful(env) && StoreOk(s) && Normalised(env, s) && k in s
    ensures var d := ExportOne(env, k, s[k]);
      InForce(env, s, d) <==> (k.ResourceKey? ==> StringLabels(s[k].res.doc)) && Accepted(env, d)
  {
    hide DiffDocs, Desired, StringLabels, Strip, DiffSpecs, NoNulls, ShownLabels;
    ExportKeepsKey(env, s, k);
    ExportKind(env, s, k);
    match s[k]
    case Object(row) => NoSpecDiffIff(row.spec, row.spec);
    case Resource(res) => ExportedResourceIff(env, k, res);
  }

  ghost predicate Once(keys: seq<Key>) { forall i, j :: 0 <= i < j < |keys| ==> keys[i] != keys[j] }

  lemma {:induction false} OnceCounts(keys: seq<Key>)
    requires Once(keys)
    ensures |AsSet(keys)| == |keys|
  {
    if keys == [] {
      assert AsSet(keys) == {};
    } else {
      var n := |keys| - 1;
      OnceCounts(keys[..n]);
      assert keys == keys[..n] + [keys[n]];
      assert AsSet(keys) == AsSet(keys[..n]) + {keys[n]} && keys[n] !in AsSet(keys[..n]);
    }
  }

  /** The documents are the exports of the keys, each key once, and the keys are the ones meant. */
  ghost predicate Lists(env: Env, s: Store, docs: seq<Doc>, keys: seq<Key>, meant: set<Key>) {
    && |docs| == |keys| && Once(keys) && AsSet(keys) == meant
    && forall i :: 0 <= i < |keys| ==> keys[i] in s && docs[i] == ExportOne(env, keys[i], s[keys[i]])
  }

  function ExportsOf(env: Env, s: Store, keys: set<Key>): set<Doc>
    requires keys <= s.Keys
  {
    set k | k in keys :: ExportOne(env, k, s[k])
  }

  /** The documents of an export, in whatever order: each exported entry once, nothing else. */
  ghost predicate IsExport(env: Env, s: Store, docs: seq<Doc>) {
    multiset(docs) == multiset(ExportsOf(env, s, Exported(s)))
  }

  lemma {:induction false} ListedIsOnce(env: Env, s: Store, docs: seq<Doc>, keys: seq<Key>, meant: set<Key>)
    requires StoreOk(s) && Lists(env, s, docs, keys, meant) && meant <= s.Keys
    ensures multiset(docs) == multiset(ExportsOf(env, s, meant))
  {
    hide ExportOne, StoreOk, ExportsOf;
    if keys == [] {
      assert meant == {};
      NothingExported(env, s);
    } else {
      var n := |keys| - 1;
      var k, rest := keys[n], AsSet(keys[..n]);
      assert keys == keys[..n] + [k] && docs == docs[..n] + [docs[n]];
      assert meant == rest + {k} && k !in rest;
      ListedIsOnce(env, s, docs[..n], keys[..n], rest);
      ExportOneMore(env, s, rest, k);
    }
  }

  lemma NothingExported(env: Env, s: Store)
    ensures ExportsOf(env, s, {}) == {}
  {}

  lemma ExportOneMore(env: Env, s: Store, keys: set<Key>, k: Key)
    requires StoreOk(s) && keys <= s.Keys && k in s && k !in keys
    ensures multiset(ExportsOf(env, s, keys + {k})) ==
      multiset(ExportsOf(env, s, keys)) + multiset{ExportOne(env, k, s[k])}
  {
    hide ExportOne, StoreOk, KeyOf;
    var d := ExportOne(env, k, s[k]);
    assert ExportsOf(env, s, keys + {k}) == ExportsOf(env, s, keys) + {d};
    assert d !in ExportsOf(env, s, keys) by {
      ExportKeepsKey(env, s, k);
      forall l | l in keys ensures ExportOne(env, l, s[l]) != d { ExportKeepsKey(env, s, l); }
    }
  }

  /** An exported document stands at one place. */
  lemma ExportIs(env: Env, s: Store, docs: seq<Doc>)
    requires IsExport(env, s, docs)
    ensures forall d :: d in docs <==> exists k :: k in Exported(s) && d == ExportOne(env, k, s[k])
    ensures forall i, j :: 0 <= i < j < |docs| ==> docs[i] != docs[j]
  {
    hide ExportOne, Exportable;
    forall d ensures d in docs <==> exists k :: k in Exported(s) && d == ExportOne(env, k, s[k]) {
      assert d in docs <==> d in multiset(docs);
    }
    forall i, j | 0 <= i < j < |docs| ensures docs[i] != docs[j] {
      assert docs == docs[..j] + docs[j..];
      assert docs[i] in docs[..j] && docs[j] in docs[j..];
      assert multiset(docs)[docs[i]] == multiset(docs[..j])[docs[i]] + multiset(docs[j..])[docs[i]];
    }
  }

  // ---- uploading an export ----------------------------------------------------------------------

  /** Host and name of the two services join to the same text. */
  predicate Joins(k: Key, l: Key) {
    k != l && k.ServiceKey? && l.ServiceKey? && k.host + "/" + k.name == l.host + "/" + l.name
  }

  predicate CleanName(name: string) { name != "" && '\n' !in name && '\t' !in name }

  /** Names an upload accepts, and no two services whose host and name join to the same text. */
  ghost predicate Presentable(s: Store) {
    && (forall k :: k in Exported(s) ==> CleanName(k.name))
    && forall k, l :: k in Exported(s) && l in Exported(s) ==> !Joins(k, l)
  }

  /** An export can be uploaded again if and only if names are clean and no two services share an identity string. */
  lemma ExportIsReadableIff(env: Env, s: Store, docs: seq<Doc>)
    requires StoreOk(s) && IsExport(env, s, docs)
    ensures Readable(docs) <==> Presentable(s)
  {
    hide StoreOk, Exportable, IsExport, NoTwins, Known, CleanName, Wellnamed, Joins;
    ExportIsLegibleIff(env, s, docs);
    ExportHasNoTwinsIff(env, s, docs);
    assert forall i :: 0 <= i < |docs| ==> docs[i] in docs;
  }

  lemma ExportIsLegibleIff(env: Env, s: Store, docs: seq<Doc>)
    requires StoreOk(s) && IsExport(env, s, docs)
    ensures (forall d :: d in docs ==> Legible(d)) <==> CleanNames(s)
  {
    hide StoreOk, Exportable, ExportOne, IsExport, Legible, CleanName;
    ExportIs(env, s, docs);
    forall k | k in Exported(s)
      ensures ExportOne(env, k, s[k]) in docs
      ensures Legible(ExportOne(env, k, s[k])) <==> CleanName(k.name) && HostNamed(k)
    {
      OneIsLegibleIff(env, s, k);
    }
    if CleanNames(s) {
      forall k | k in Exported(s) ensures HostNamed(k) { HostsAreNamed(s, k); }
    }
  }

  lemma ExportHasNoTwinsIff(env: Env, s: Store, docs: seq<Doc>)
    requires StoreOk(s) && IsExport(env, s, docs)
    ensures NoTwins(docs) <==> forall k, l :: k in Exported(s) && l in Exported(s) ==> !Joins(k, l)
  {
    hide StoreOk, Exportable, ExportOne, IsExport, Ident, Joins, KeyOf;
    ExportIs(env, s, docs);
    if NoTwins(docs) {
      forall k, l | k in Exported(s) && l in Exported(s) ensures !Joins(k, l) {
        ExportsShareIdentIff(env, s, k, l);
        var d, e := ExportOne(env, k, s[k]), ExportOne(env, l, s[l]);
        assert d in docs && e in docs;
        var i :| 0 <= i < |docs| && docs[i] == d;
        var j :| 0 <= j < |docs| && docs[j] == e;
        assert i < j ==> Ident(docs[i]) != Ident(docs[j]);
        assert j < i ==> Ident(docs[j]) != Ident(docs[i]);
      }
    }
    if forall k, l :: k in Exported(s) && l in Exported(s) ==> !Joins(k, l) {
      forall i, j | 0 <= i < j < |docs| ensures Ident(docs[i]) != Ident(docs[j]) {
        assert docs[i] in docs && docs[j] in docs;
        var k :| k in Exported(s) && docs[i] == ExportOne(env, k, s[k]);
        var l :| l in Exported(s) && docs[j] == ExportOne(env, l, s[l]);
        ExportsShareIdentIff(env, s, k, l);
      }
    }
  }

  ghost predicate CleanNames(s: Store) { forall k :: k in Exported(s) ==> CleanName(k.name) }

  predicate HostNamed(k: Key) { k.ServiceKey? ==> k.host != "" }

  lemma HostsAreNamed(s: Store, k: Key)
    requires StoreOk(s) && k in Exported(s) && CleanNames(s)
    ensures HostNamed(k)
  {
    if k.ServiceKey? { assert HostKey(k.host) in Exported(s) && HostKey(k.host).name != ""; }
  }

  lemma OneIsLegibleIff(env: Env, s: Store, k: Key)
    requires StoreOk(s) && k in s
    ensures Legible(ExportOne(env, k, s[k])) <==> CleanName(k.name) && HostNamed(k)
  {
    hide Known, Supported;
    ExportKeepsKey(env, s, k);
    SupportedIsKnown(ExportOne(env, k, s[k]).kind);
    ExportNames(env, s, k);
  }

  lemma ExportNames(env: Env, s: Store, k: Key)
    requires StoreOk(s) && k in s
    ensures var d := ExportOne(env, k, s[k]);
      d.meta.name == k.name && (k.ServiceKey? ==> d.meta.host == k.host) && (d.kind == "Service" <==> k.ServiceKey?)
  {
    KindsDiffer();
  }

  lemma ExportsShareIdentIff(env: Env, s: Store, k: Key, l: Key)
    requires StoreOk(s) && k in s && l in s
    ensures ExportOne(env, k, s[k]) == ExportOne(env, l, s[l]) <==> k == l
    ensures Ident(ExportOne(env, k, s[k])) == Ident(ExportOne(env, l, s[l])) <==> k == l || Joins(k, l)
    ensures Joins(k, l) ==> k != l
  {
    hide StoreOk, ExportOne, Text, Ident, KeyOf;
    ExportKeepsKey(env, s, k);
    ExportKeepsKey(env, s, l);
    IdentIsText(ExportOne(env, k, s[k]));
    IdentIsText(ExportOne(env, l, s[l]));
    StoredIsProper(s, k);
    StoredIsProper(s, l);
    SameTextIff(k, l);
  }

  /** Hosts a and a/b, service b/c on the one and c on the other: whatever else the store's checks say, the export of
      this store is refused as a bundle with a duplicate. */
  lemma JoinedExportIsRefused(env: Env, a: string, b: string, c: string, row: Row, docs: seq<Doc>)
    requires IsExport(env, JoinedStore(a, b, c, row), docs)
    ensures StoreOk(JoinedStore(a, b, c, row)) && !Valid(docs)
  {
    var s := JoinedStore(a, b, c, row);
    var k, l := ServiceKey(a, b + "/" + c), ServiceKey(a + "/" + b, c);
    assert |a + "/" + b| > |a|;
    assert a + "/" + (b + "/" + c) == a + "/" + b + "/" + c;
    assert k in Exported(s) && l in Exported(s) && Joins(k, l);
    ExportHasNoTwinsIff(env, s, docs);
  }

  function JoinedStore(a: string, b: string, c: string, row: Row): Store {
    map[HostKey(a) := Object(row), HostKey(a + "/" + b) := Object(row),
        ServiceKey(a, b + "/" + c) := Object(row), ServiceKey(a + "/" + b, c) := Object(row)]
  }

  // ---- applying an export -----------------------------------------------------------------------

  /** All stored resource labels are strings, and validation still accepts every stored document. */
  ghost predicate Reproducible(env: Env, s: Store) {
    forall k :: k in Exported(s) ==>
      (k.ResourceKey? && s[k].Resource? ==> StringLabels(s[k].res.doc)) && Accepted(env, ExportOne(env, k, s[k]))
  }

  /** Applying the documents of an export, in any order, finds all of them in force exactly when stored labels are
      strings and every document is still accepted; and it prunes nothing in any case. */
  lemma ApplyingExportIff(env: Env, s: Store, docs: seq<Doc>, stamps: nat -> Stamp)
    requires Faithful(env) && StoreOk(s) && Normalised(env, s) && IsExport(env, s, docs)
    ensures NothingHappens(s, docs, ApplyAll(env, s, docs, stamps)) <==> Reproducible(env, s)
    ensures ToPrune(env, s, docs, Unset) == {}
  {
    hide ApplyAll, InForce, StoreOk, Normalised, Faithful, StringLabels, Accepted, ExportOne, Text, KeyOf, Ident,
         Exportable, Supported, IsExport;
    ExportIs(env, s, docs);
    NothingHappensIff(env, s, docs, stamps);
    forall k | k in Exported(s)
      ensures var d := ExportOne(env, k, s[k]);
        && d in docs && Text(k) in Idents(docs) && (k.ResourceKey? ==> s[k].Resource?)
        && (InForce(env, s, d) <==> (k.ResourceKey? ==> StringLabels(s[k].res.doc)) && Accepted(env, d))
    {
      var d := ExportOne(env, k, s[k]);
      assert d in docs;
      ExportKeepsKey(env, s, k);
      ExportKind(env, s, k);
      ExportedIsInForceIff(env, s, k);
      IdentIsText(d);
      assert Ident(d) in Idents(docs);
    }
  }

  /** Export and upload again, the round trip: the upload is read and the run changes nothing, if and only if names are
      clean, no two services join to the same text, stored labels are strings, and every stored document is still
      accepted. */
  lemma ExportThenApplyIff(env: Env, s: Store, docs: seq<Doc>, stamps: nat -> Stamp)
    requires Faithful(env) && StoreOk(s) && Normalised(env, s) && IsExport(env, s, docs)
    ensures Readable(docs) && NothingHappens(s, Ordered(docs), ApplyAll(env, s, Ordered(docs), stamps)) <==>
      Presentable(s) && Reproducible(env, s)
    ensures ToPrune(env, s, docs, Unset) == {}
  {
    hide *;
    ExportIsReadableIff(env, s, docs);
    OrderedExport(env, s, docs);
    ApplyingExportIff(env, s, docs, stamps);
    ApplyingExportIff(env, s, Ordered(docs), stamps);
  }

  /** The same for what any bundle run has left, stopped or not: runs keep rows as the store normalises them. */
  lemma ExportAfterRunIff(env: Env, s: Store, docs: seq<Doc>, prune: bool, sel: Maybe<Labels -> bool>,
                          stamps: nat -> Stamp,
                          exported: seq<Doc>, stamps': nat -> Stamp)
    requires Faithful(env) && StoreOk(s) && Normalised(env, s)
    requires IsExport(env, AfterBundle(env, s, docs, prune, sel, stamps), exported)
    ensures var after := AfterBundle(env, s, docs, prune, sel, stamps);
      && StoreOk(after) && Normalised(env, after)
      && (Readable(exported) &&
          NothingHappens(after, Ordered(exported), ApplyAll(env, after, Ordered(exported), stamps')) <==>
            Presentable(after) && Reproducible(env, after))
  {
    hide ApplyAll, StoreOk, Normalised, Faithful, Stopped, IsExport, Presentable, Reproducible, Readable, ToPrune, Left,
         NothingHappens;
    var applied := ApplyAll(env, s, docs, stamps).store;
    AppliedKeepsStore(env, s, docs, stamps);
    AppliedStaysNormal(env, s, docs, stamps);
    LeftIsOk(applied, ToPrune(env, s, docs, sel));
    LeftStaysNormal(env, applied, ToPrune(env, s, docs, sel));
    ExportThenApplyIff(env, AfterBundle(env, s, docs, prune, sel, stamps), exported, stamps');
  }

  lemma LeftStaysNormal(env: Env, s: Store, gone: set<Key>)
    requires Normalised(env, s)
    ensures Normalised(env, Left(s, gone))
  {}

  lemma ExportKind(env: Env, s: Store, k: Key)
    requires StoreOk(s) && k in s
    ensures k.ResourceKey? ==> s[k].Resource? && ExportOne(env, k, s[k]).kind == k.kind
  {}

  /** Sorting an export by kind gives an export. */
  lemma OrderedExport(env: Env, s: Store, docs: seq<Doc>)
    requires IsExport(env, s, docs)
    ensures IsExport(env, s, Ordered(docs))
  {
    hide Ordered, ExportsOf;
    OrderedIsStableSort(docs, 0);
  }
}
