/** What each outcome of applying a document means (internal/api/bundles.go), when a run ends, what it has written, and
    what pruning takes: said of the stored configuration and the checks, not of the functions that compute it. */
module BundleOutcomes {
  import opened Basics
  import opened BundleModel
  import opened BundleStore
  import opened BundleRuns
  import opened BundleConvergence
  import opened BundlePlans

  // ---- one document -----------------------------------------------------------------------------

  /** The row a host or service document asks for. */
  function AskedRow(d: Doc, spec: Body): Row {
    Row(if d.meta.folder == "" then "/" else d.meta.folder,
        if d.meta.labels.Set? then d.meta.labels.value else map[], spec)
  }

  /** The document as the check sees it: specification, data over it, labels over both if there are any, and its name.
      */
  ghost predicate IsAskedBody(d: Doc, body: Body) {
    && "name" in body && body["name"] == Str(d.meta.name)
    && forall f | f != "name" ::
         Lookup(body, f) ==
         if f == "labels" && d.meta.labels.Set? && d.meta.labels.value != map[] then
           Obj(map l | l in d.meta.labels.value :: Str(d.meta.labels.value[l]))
         else if f in d.data then d.data[f]
         else Lookup(d.spec, f)
  }

  function AskedBody(d: Doc): Body { Desired(d)["name" := Str(d.meta.name)] }

  lemma AskedBodyIs(d: Doc)
    ensures IsAskedBody(d, AskedBody(d))
  {
    var labels := LabelsOf(d);
    assert labels != map[] ==> LabelJson(labels) == Obj(map l | l in labels :: Str(labels[l]));
  }

  /** Every outcome, exactly.  A host or service document is malformed when its specification does not decode, names an
      unknown host when it is a service whose host is not stored, changes nothing when it is in force, and is refused
      when it would be written and its check says no.  A resource document is refused whenever its check says no, in
      force or not.  Whatever remains is written: created if there was nothing, updated otherwise. */
  lemma OutcomeMeans(env: Env, s: Store, d: Doc, stamp: Stamp)
    ensures var out, k := ApplyOne(env, s, d, stamp).1, KeyOf(d);
      var isObj := d.kind == "Host" || d.kind == "Service";
      var decoded, known := env.decode(d.spec), d.kind == "Service" ==> HostKey(d.meta.host) in s;
      && (out == Failed(BadSpec) <==> isObj && decoded.Unset?)
      && (out == Failed(UnknownHost) <==> isObj && decoded.Set? && !known)
      && (out == Failed(Rejected) <==>
            if isObj then
              decoded.Set? && known && !InForce(env, s, d) && !env.objectOk(s, k, AskedRow(d, decoded.value))
            else d.kind in RESOURCE_KINDS && !env.docOk(d.kind, AskedBody(d)))
      && (out == NoChange <==> InForce(env, s, d))
      && (out == Created <==> !out.Failed? && !InForce(env, s, d) && k !in s)
      && (out == Updated <==> !out.Failed? && !InForce(env, s, d) && k in s)
  {
    hide DiffDocs, SameRow, Desired, Put;
    NothingToDoIff(env, s, d, stamp);
  }

  /** What is written has passed its check; what fails or changes nothing writes nothing. */
  lemma WrittenIsAccepted(env: Env, s: Store, d: Doc, stamp: Stamp)
    ensures var (s', out) := ApplyOne(env, s, d, stamp);
      var k := KeyOf(d);
      if out == Created || out == Updated then
        && k in s' && (forall x :: x != k ==> (x in s' <==> x in s) && (x in s ==> s'[x] == s[x]))
        && (if d.kind == "Host" || d.kind == "Service" then
              && env.decode(d.spec).Set? && s'[k] == Object(AskedRow(d, env.decode(d.spec).value))
              && env.objectOk(s, k, s'[k].row)
            else d.kind in RESOURCE_KINDS && s'[k].Resource? && env.docOk(d.kind, AskedBody(d)))
      else s' == s
  {
    hide DiffDocs, SameRow, Desired, Put;
  }

  /** A document is in force exactly when the stored entry agrees with it: a row in folder, labels and every field of
      the specification; a resource, once its check accepts the document, in every field the document sets, none of
      which is one that the store writes itself. */
  lemma InForceMeans(env: Env, s: Store, d: Doc)
    requires Faithful(env) && StoreOk(s) && Normalised(env, s)
    ensures InForce(env, s, d) <==>
      var k := KeyOf(d);
      if d.kind == "Host" || d.kind == "Service" then
        && env.decode(d.spec).Set? && k in s && s[k] == Object(AskedRow(d, env.decode(d.spec).value))
      else d.kind in RESOURCE_KINDS ==>
        && env.docOk(d.kind, AskedBody(d)) && k in s
        && forall f :: Lookup(Desired(d), f) != Null ==>
             && f !in {"id", "tenantId", "version", "createdAt", "updatedAt", "name"}
             && s[k].Resource? && Lookup(s[k].res.doc, f) == Lookup(Desired(d), f)
  {
    hide DiffDocs, Desired, DiffSpecs, NoNulls, Put;
    var k := KeyOf(d);
    if IsObject(d) {
      if env.decode(d.spec).Set? && k in s {
        assert env.decode(env.decode(d.spec).value) == env.decode(d.spec);
        NoSpecDiffIff(s[k].row.spec, env.decode(d.spec).value);
      }
    } else if d.kind in RESOURCE_KINDS && k in s {
      NoDocDiffIff(s[k].res.doc, d);
    }
  }

  lemma NoDocDiffIff(stored: Body, d: Doc)
    ensures DiffDocs(stored, d) == map[] <==>
      forall f :: Lookup(Desired(d), f) != Null ==>
        f !in {"id", "tenantId", "version", "createdAt", "updatedAt", "name"} &&
        Lookup(stored, f) == Lookup(Desired(d), f)
  {
    hide Desired;
    var diff := DiffDocs(stored, d);
    forall f
      ensures f in diff <==>
        Lookup(Desired(d), f) != Null &&
        (f in {"id", "tenantId", "version", "createdAt", "updatedAt", "name"} ||
         Lookup(stored, f) != Lookup(Desired(d), f))
    {
      assert f in Strip(stored) <==> f in stored && f !in ENVELOPE;
    }
    if diff != map[] { var f :| f in diff; }
  }

  // ---- a run ------------------------------------------------------------------------------------

  /** The store a document of the run meets. */
  function StoreBefore(env: Env, s: Store, docs: seq<Doc>, stamps: nat -> Stamp, i: nat): Store
    requires i <= |docs|
  {
    ApplyAll(env, s, docs[..i], stamps).store
  }

  lemma OneMoreDoc(env: Env, s: Store, docs: seq<Doc>, stamps: nat -> Stamp)
    requires docs != []
    ensures var n := |docs| - 1;
      var r := ApplyAll(env, s, docs[..n], stamps);
      && StoreBefore(env, s, docs, stamps, n) == r.store
      && ApplyAll(env, s, docs, stamps) ==
         (if Stopped(r) then r
          else Applied(ApplyOne(env, r.store, docs[n], stamps(n)).0,
                       r.outcomes + [ApplyOne(env, r.store, docs[n], stamps(n)).1]))
      && forall i :: 0 <= i <= n ==> StoreBefore(env, s, docs[..n], stamps, i) == StoreBefore(env, s, docs, stamps, i)
  {
    hide ApplyOne;
    assert forall i :: 0 <= i <= |docs| - 1 ==> docs[..|docs| - 1][..i] == docs[..i];
  }

  /** Each outcome is that of its document in the store the run had reached; only the last can be a failure, and without
      one every document has had its turn. */
  lemma {:induction false} RunGoesInOrder(env: Env, s: Store, docs: seq<Doc>, stamps: nat -> Stamp)
    ensures var r := ApplyAll(env, s, docs, stamps);
      && |r.outcomes| <= |docs|
      && (forall i :: 0 <= i < |r.outcomes| ==>
            r.outcomes[i] == ApplyOne(env, StoreBefore(env, s, docs, stamps, i), docs[i], stamps(i)).1)
      && (forall i :: 0 <= i < |r.outcomes| - 1 ==> !r.outcomes[i].Failed?)
      && (|r.outcomes| == |docs| || Stopped(r))
  {
    hide ApplyOne, ApplyAll, StoreBefore;
    if docs == [] {
      NothingApplied(env, s, stamps);
    } else {
      RunGoesInOrder(env, s, docs[..|docs| - 1], stamps);
      OneMoreDoc(env, s, docs, stamps);
    }
  }

  lemma NothingApplied(env: Env, s: Store, stamps: nat -> Stamp)
    ensures ApplyAll(env, s, [], stamps) == Applied(s, [])
  {}

  /** A run ends early exactly at a document that is malformed, names an unknown host or is refused, and writes nothing
      for it or after it. */
  lemma RunStopsIff(env: Env, s: Store, docs: seq<Doc>, stamps: nat -> Stamp, i: nat)
    requires i < |ApplyAll(env, s, docs, stamps).outcomes|
    ensures i < |docs|
    ensures var r, before, d := ApplyAll(env, s, docs, stamps), StoreBefore(env, s, docs, stamps, i), docs[i];
      var isObj, decoded := d.kind == "Host" || d.kind == "Service", env.decode(d.spec);
      var known := d.kind == "Service" ==> HostKey(d.meta.host) in before;
      && (r.outcomes[i] == Failed(Rejected) <==>
            if isObj then
              && decoded.Set? && known && !InForce(env, before, d)
              && !env.objectOk(before, KeyOf(d), AskedRow(d, decoded.value))
            else d.kind in RESOURCE_KINDS && !env.docOk(d.kind, AskedBody(d)))
      && (r.outcomes[i] == Failed(BadSpec) <==> isObj && decoded.Unset?)
      && (r.outcomes[i] == Failed(UnknownHost) <==> isObj && decoded.Set? && !known)
      && (r.outcomes[i].Failed? ==> i + 1 == |r.outcomes| && r.store == before)
  {
    hide ApplyOne, InForce, AskedBody, ApplyAll;
    RunGoesInOrder(env, s, docs, stamps);
    OutcomeMeans(env, StoreBefore(env, s, docs, stamps, i), docs[i], stamps(i));
    if ApplyAll(env, s, docs, stamps).outcomes[i].Failed? { StoppedStore(env, s, docs, stamps); }
  }

  lemma {:induction false} StoppedStore(env: Env, s: Store, docs: seq<Doc>, stamps: nat -> Stamp)
    ensures var r := ApplyAll(env, s, docs, stamps);
      |r.outcomes| <= |docs| &&
      (Stopped(r) ==> r.store == StoreBefore(env, s, docs, stamps, |r.outcomes| - 1))
  {
    hide ApplyOne, ApplyAll, StoreBefore, AskedRow, AskedBody;
    if docs == [] {
      NothingApplied(env, s, stamps);
    } else {
      var n := |docs| - 1;
      StoppedStore(env, s, docs[..n], stamps);
      OutcomesFit(env, s, docs[..n], stamps);
      WrittenIsAccepted(env, ApplyAll(env, s, docs[..n], stamps).store, docs[n], stamps(n));
      OneMoreDoc(env, s, docs, stamps);
    }
  }

  lemma OutcomesFit(env: Env, s: Store, docs: seq<Doc>, stamps: nat -> Stamp)
    ensures var r := ApplyAll(env, s, docs, stamps);
      |r.outcomes| <= |docs| && (|r.outcomes| == |docs| || Stopped(r))
  {
    RunGoesInOrder(env, s, docs, stamps);
  }

  /** Document `i` of the run wrote the entry, and what it wrote passed its check in the store it met. */
  ghost predicate WroteAccepted(env: Env, s: Store, docs: seq<Doc>, stamps: nat -> Stamp, i: nat, k: Key, item: Item)
    requires i < |docs|
  {
    var d, before := docs[i], StoreBefore(env, s, docs, stamps, i);
    && KeyOf(d) == k
    && (d.kind == "Host" || d.kind == "Service" ==>
          && env.decode(d.spec).Set? && item == Object(AskedRow(d, env.decode(d.spec).value))
          && env.objectOk(before, k, item.row))
    && (d.kind != "Host" && d.kind != "Service" ==>
          d.kind in RESOURCE_KINDS && item.Resource? && env.docOk(d.kind, AskedBody(d)))
  }

  /** Whatever differs after a run, completed or not, was written by one of its documents and had passed its check. */
  lemma {:induction false} ChangesWereAccepted(env: Env, s: Store, docs: seq<Doc>, stamps: nat -> Stamp, k: Key)
    ensures var r := ApplyAll(env, s, docs, stamps);
      && (k in s ==> k in r.store)
      && (k in r.store && (k !in s || r.store[k] != s[k]) ==>
            exists i: nat :: i < |docs| && WroteAccepted(env, s, docs, stamps, i, k, r.store[k]))
  {
    hide ApplyOne, AskedBody, KeyOf;
    if docs != [] {
      var n := |docs| - 1;
      var r0 := ApplyAll(env, s, docs[..n], stamps);
      ChangesWereAccepted(env, s, docs[..n], stamps, k);
      WrittenIsAccepted(env, r0.store, docs[n], stamps(n));
      assert forall i :: 0 <= i <= n ==> docs[..n][..i] == docs[..i];
      if k in r0.store && (k !in s || r0.store[k] != s[k]) {
        var i: nat :| i < n && WroteAccepted(env, s, docs[..n], stamps, i, k, r0.store[k]);
        assert WroteAccepted(env, s, docs, stamps, i, k, r0.store[k]);
      }
      var r := ApplyAll(env, s, docs, stamps);
      if k in r.store && !(k in r0.store && r.store[k] == r0.store[k]) {
        assert WroteAccepted(env, s, docs, stamps, n, k, r.store[k]);
      }
    }
  }

  // ---- pruning ----------------------------------------------------------------------------------

  /** Some document of the bundle has the entry's identity string. */
  ghost predicate Mentioned(docs: seq<Doc>, k: Key) { exists d :: d in docs && Ident(d) == Text(k) }

  /** Pruning schedules an entry: it was stored before the run and is no role, the bundle does not mention it, and the
      selector, if there is one, matches the labels it had. */
  ghost predicate Scheduled(env: Env, s: Store, docs: seq<Doc>, sel: Maybe<Labels -> bool>, k: Key) {
    && k in s && !(k.ResourceKey? && k.kind == "Role") && !Mentioned(docs, k)
    && match sel
       case Unset => true
       case Set(matches) => matches(LabelsAt(env, s, k))
  }

  /** What a completed run with pruning leaves of an applied entry: it is gone exactly when it is scheduled or is a
      service whose host is.  So an entry that the selector does not match survives, unless its host goes; and without
      pruning, or after a failure, nothing goes. */
  lemma PrunedIff(env: Env, s: Store, docs: seq<Doc>, prune: bool, sel: Maybe<Labels -> bool>, stamps: nat -> Stamp,
                  k: Key)
    ensures var r, after := ApplyAll(env, s, docs, stamps), AfterBundle(env, s, docs, prune, sel, stamps);
      && (k in after ==> k in r.store && after[k] == r.store[k])
      && (k in r.store && k !in after <==>
            && prune && !Stopped(r) && k in r.store
            && (Scheduled(env, s, docs, sel, k)
                || (k.ServiceKey? && Scheduled(env, s, docs, sel, HostKey(k.host)))))
  {
    hide ApplyAll, Text, Ident, LabelsAt, Stopped;
    forall x ensures x in ToPrune(env, s, docs, sel) <==> Scheduled(env, s, docs, sel, x) {
      assert Text(x) in Idents(docs) <==> Mentioned(docs, x);
    }
  }

  // ---- plans ------------------------------------------------------------------------------------

  /** What a plan says of a document: nothing can be said if a host or service does not decode; it is new if nothing is
      stored under its key or its host is unknown; otherwise it is planned as an update exactly when it differs, where a
      missing label map counts as different. */
  lemma PlanMeans(env: Env, s: Store, d: Doc)
    requires StoreOk(s)
    ensures var plan, k := PlanOne(env, s, d), KeyOf(d);
      var isObj, decoded := d.kind == "Host" || d.kind == "Service", env.decode(d.spec);
      && (plan.Unset? <==> isObj && decoded.Unset?)
      && (plan == Set(Create) <==> plan.Set? && (isObj || d.kind in RESOURCE_KINDS) && k !in s)
      && (plan == Set(Update) && isObj <==>
            && isObj && decoded.Set? && k in s
            && !(s[k].row.folder == AskedRow(d, decoded.value).folder && d.meta.labels == Set(s[k].row.labels)
                 && DiffSpecs(s[k].row.spec, decoded.value) == map[]))
      && (plan == Set(Update) && !isObj <==>
            !isObj && d.kind in RESOURCE_KINDS && k in s && DiffDocs(s[k].res.doc, d) != map[])
  {
    hide DiffDocs, DiffSpecs, Desired;
  }
}
