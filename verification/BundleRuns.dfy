/** Whole bundles (internal/api/bundles.go): applying all documents, pruning, and what repeating it does. */
module BundleRuns {
  import opened Basics
  import opened BundleModel
  import opened BundleStore

  // ---- applying all documents -------------------------------------------------------------------

  datatype Applied = Applied(store: Store, outcomes: seq<Outcome>)

  predicate Stopped(r: Applied) { r.outcomes != [] && r.outcomes[|r.outcomes| - 1].Failed? }

  /** One after another; the first failure stops the run. */
  function ApplyAll(env: Env, s: Store, docs: seq<Doc>, stamps: nat -> Stamp): Applied {
    if docs == [] then Applied(s, [])
    else
      var n := |docs| - 1;
      var r := ApplyAll(env, s, docs[..n], stamps);
      if Stopped(r) then r
      else var (s', out) := ApplyOne(env, r.store, docs[n], stamps(n)); Applied(s', r.outcomes + [out])
  }

  function KeysOf(docs: seq<Doc>): set<Key> { set d | d in docs :: KeyOf(d) }

  ghost predicate DistinctKeys(docs: seq<Doc>) {
    forall i, j :: 0 <= i < j < |docs| ==> KeyOf(docs[i]) != KeyOf(docs[j])
  }

  predicate AllSupported(docs: seq<Doc>) { forall d :: d in docs ==> Supported(d.kind) }

  /** Every service's host is a host document of the bundle. */
  ghost predicate WithHosts(docs: seq<Doc>) {
    forall d :: d in docs && d.kind == "Service" ==> HostKey(d.meta.host) in KeysOf(docs)
  }

  /** The host document comes before its services. */
  ghost predicate HostsFirst(docs: seq<Doc>) {
    forall j :: 0 <= j < |docs| && docs[j].kind == "Service" ==>
      exists i :: 0 <= i < j && KeyOf(docs[i]) == HostKey(docs[j].meta.host)
  }

  /** Sorting by kind puts hosts before their services. */
  lemma SortingPutsHostsFirst(docs: seq<Doc>)
    requires WithHosts(docs)
    ensures HostsFirst(Ordered(docs))
  {
    hide Ordered, Rank;
    var sorted := Ordered(docs);
    OrderedIsStableSort(docs, 0);
    HostsRankBeforeServices();
    forall j | 0 <= j < |sorted| && sorted[j].kind == "Service"
      ensures exists i :: 0 <= i < j && KeyOf(sorted[i]) == HostKey(sorted[j].meta.host)
    {
      assert sorted[j] in multiset(docs);
      var h :| h in docs && KeyOf(h) == HostKey(sorted[j].meta.host);
      assert h in multiset(sorted);
      var i :| 0 <= i < |sorted| && sorted[i] == h;
      assert Rank(sorted[i].kind) < Rank(sorted[j].kind);
    }
  }

  lemma SortingKeepsDocs(docs: seq<Doc>)
    ensures forall d :: d in Ordered(docs) <==> d in docs
    ensures KeysOf(Ordered(docs)) == KeysOf(docs) && |Ordered(docs)| == |docs|
  {
    hide Ordered;
    OrderedIsStableSort(docs, 0);
    forall d ensures d in Ordered(docs) <==> d in docs {
      assert d in Ordered(docs) <==> d in multiset(Ordered(docs));
      assert d in docs <==> d in multiset(docs);
    }
    assert |multiset(Ordered(docs))| == |multiset(docs)|;
  }

  lemma {:induction false} AppliedKeys(env: Env, s: Store, docs: seq<Doc>, stamps: nat -> Stamp)
    requires !Stopped(ApplyAll(env, s, docs, stamps))
    ensures |ApplyAll(env, s, docs, stamps).outcomes| == |docs|
    ensures AllSupported(docs) ==> ApplyAll(env, s, docs, stamps).store.Keys == s.Keys + KeysOf(docs)
  {
    hide ApplyOne, KeyOf, Supported;
    if docs != [] {
      var n := |docs| - 1;
      AppliedKeys(env, s, docs[..n], stamps);
      AppliesOnlyItself(env, ApplyAll(env, s, docs[..n], stamps).store, docs[n], stamps(n));
      LastKey(docs);
    }
  }

  lemma LastKey(docs: seq<Doc>)
    requires docs != []
    ensures KeysOf(docs) == KeysOf(docs[..|docs| - 1]) + {KeyOf(docs[|docs| - 1])}
  {
    hide KeyOf;
    var n := |docs| - 1;
    assert docs == docs[..n] + [docs[n]];
    forall k ensures k in KeysOf(docs) <==> k in KeysOf(docs[..n]) || k == KeyOf(docs[n]) {
      if k in KeysOf(docs) {
        var d :| d in docs && KeyOf(d) == k;
        assert d in docs[..n] || d == docs[n];
      }
    }
  }

  lemma {:induction false} AppliedElsewhere(env: Env, s: Store, docs: seq<Doc>, stamps: nat -> Stamp, k: Key)
    requires k !in KeysOf(docs)
    ensures var s' := ApplyAll(env, s, docs, stamps).store; (k in s' <==> k in s) && (k in s ==> s'[k] == s[k])
  {
    hide ApplyOne, KeyOf, Supported;
    if docs != [] {
      var n := |docs| - 1;
      LastKey(docs);
      AppliedElsewhere(env, s, docs[..n], stamps, k);
      AppliesOnlyItself(env, ApplyAll(env, s, docs[..n], stamps).store, docs[n], stamps(n));
    }
  }

  lemma {:induction false} AppliedKeepsKeys(env: Env, s: Store, docs: seq<Doc>, stamps: nat -> Stamp)
    ensures s.Keys <= ApplyAll(env, s, docs, stamps).store.Keys
  {
    hide ApplyOne, KeyOf, Supported;
    if docs != [] {
      var n := |docs| - 1;
      AppliedKeepsKeys(env, s, docs[..n], stamps);
      AppliesOnlyItself(env, ApplyAll(env, s, docs[..n], stamps).store, docs[n], stamps(n));
    }
  }

  lemma {:induction false} AppliedKeepsStore(env: Env, s: Store, docs: seq<Doc>, stamps: nat -> Stamp)
    requires StoreOk(s)
    ensures StoreOk(ApplyAll(env, s, docs, stamps).store)
  {
    hide ApplyOne, StoreOk;
    if docs != [] {
      var n := |docs| - 1;
      AppliedKeepsStore(env, s, docs[..n], stamps);
      ApplyKeepsStore(env, ApplyAll(env, s, docs[..n], stamps).store, docs[n], stamps(n));
    }
  }

  lemma {:induction false} AppliedStaysNormal(env: Env, s: Store, docs: seq<Doc>, stamps: nat -> Stamp)
    requires Faithful(env) && Normalised(env, s)
    ensures Normalised(env, ApplyAll(env, s, docs, stamps).store)
  {
    hide ApplyOne, Normalised, Faithful;
    if docs != [] {
      var n := |docs| - 1;
      AppliedStaysNormal(env, s, docs[..n], stamps);
      ApplyNormalises(env, ApplyAll(env, s, docs[..n], stamps).store, docs[n], stamps(n));
    }
  }

  // ---- hosts are always known -------------------------------------------------------------------

  lemma {:induction false} AppliedHosts(env: Env, s: Store, docs: seq<Doc>, stamps: nat -> Stamp, i: nat)
    requires i < |docs| && KeyOf(docs[i]).HostKey? && !Stopped(ApplyAll(env, s, docs, stamps))
    ensures KeyOf(docs[i]) in ApplyAll(env, s, docs, stamps).store
  {
    hide ApplyOne, KeyOf, Supported;
    var n := |docs| - 1;
    var before := ApplyAll(env, s, docs[..n], stamps).store;
    AppliesOnlyItself(env, before, docs[n], stamps(n));
    if i < n { AppliedHosts(env, s, docs[..n], stamps, i); } else { HostsAreSupported(docs[i]); }
  }

  lemma HostsAreSupported(d: Doc)
    requires KeyOf(d).HostKey?
    ensures Supported(d.kind)
  {}

  lemma NoUnknownHost(env: Env, s: Store, d: Doc, stamp: Stamp)
    requires d.kind == "Service" ==> HostKey(d.meta.host) in s
    ensures ApplyOne(env, s, d, stamp).1 != Failed(UnknownHost)
  {
    hide DiffDocs, SameRow, Desired, Put;
  }

  /** Whatever else may fail, no service ever meets an unknown host when host documents come first. */
  lemma {:induction false} HostsAreAlwaysKnown(env: Env, s: Store, docs: seq<Doc>, stamps: nat -> Stamp)
    requires HostsFirst(docs)
    ensures forall o :: o in ApplyAll(env, s, docs, stamps).outcomes ==> o != Failed(UnknownHost)
  {
    hide ApplyOne, KeyOf;
    if docs != [] {
      var n := |docs| - 1;
      var r := ApplyAll(env, s, docs[..n], stamps);
      forall j | 0 <= j < n && docs[..n][j].kind == "Service"
        ensures exists i :: 0 <= i < j && KeyOf(docs[..n][i]) == HostKey(docs[..n][j].meta.host)
      {
        var i :| 0 <= i < j && KeyOf(docs[i]) == HostKey(docs[j].meta.host);
        assert docs[..n][i] == docs[i];
      }
      HostsAreAlwaysKnown(env, s, docs[..n], stamps);
      if !Stopped(r) {
        if docs[n].kind == "Service" {
          var i :| 0 <= i < n && KeyOf(docs[i]) == HostKey(docs[n].meta.host);
          assert docs[..n][i] == docs[i];
          AppliedHosts(env, s, docs[..n], stamps, i);
        }
        NoUnknownHost(env, r.store, docs[n], stamps(n));
      }
    }
  }

  // ---- applying twice ---------------------------------------------------------------------------

  lemma InForceIsLocal(env: Env, s: Store, s': Store, d: Doc)
    requires s.Keys <= s'.Keys && KeyOf(d) in s' ==> KeyOf(d) in s && s'[KeyOf(d)] == s[KeyOf(d)]
    requires StoreOk(s) && s.Keys <= s'.Keys
    ensures InForce(env, s', d) <==> InForce(env, s, d)
  {
    hide DiffDocs, SameRow, Desired;
    if IsObject(d) {
      assert d.kind == "Service" && KeyOf(d) in s ==> HostKey(d.meta.host) in s;
    }
  }

  /** After a completed run each document is in force, except for those that set envelope fields. */
  lemma {:induction false} EachIsInForceIff(env: Env, s: Store, docs: seq<Doc>, stamps: nat -> Stamp, i: nat)
    requires Faithful(env) && StoreOk(s) && DistinctKeys(docs) && i < |docs|
    requires !Stopped(ApplyAll(env, s, docs, stamps))
    ensures InForce(env, ApplyAll(env, s, docs, stamps).store, docs[i]) <==> !SetsEnvelope(docs[i])
  {
    hide ApplyOne, KeyOf, Supported, InForce, SetsEnvelope, StoreOk, Faithful;
    var n := |docs| - 1;
    var r := ApplyAll(env, s, docs[..n], stamps);
    AppliedKeepsStore(env, s, docs[..n], stamps);
    AppliesOnlyItself(env, r.store, docs[n], stamps(n));
    if i == n {
      AppliedIsInForceIff(env, r.store, docs[n], stamps(n));
    } else {
      assert forall a, b :: 0 <= a < b < n ==> KeyOf(docs[..n][a]) != KeyOf(docs[..n][b]);
      EachIsInForceIff(env, s, docs[..n], stamps, i);
      assert KeyOf(docs[i]) != KeyOf(docs[n]);
      InForceIsLocal(env, r.store, ApplyAll(env, s, docs, stamps).store, docs[i]);
    }
  }

  ghost predicate NothingHappens(s: Store, docs: seq<Doc>, r: Applied) {
    r.store == s && |r.outcomes| == |docs| && forall o :: o in r.outcomes ==> o == NoChange
  }

  /** A run over documents in force does nothing, and only such a run does nothing. */
  lemma {:induction false} NothingHappensIff(env: Env, s: Store, docs: seq<Doc>, stamps: nat -> Stamp)
    ensures NothingHappens(s, docs, ApplyAll(env, s, docs, stamps)) <==> forall d :: d in docs ==> InForce(env, s, d)
  {
    hide ApplyOne, InForce;
    if docs != [] {
      var n := |docs| - 1;
      var r, r' := ApplyAll(env, s, docs[..n], stamps), ApplyAll(env, s, docs, stamps);
      NothingHappensIff(env, s, docs[..n], stamps);
      NothingToDoIff(env, r.store, docs[n], stamps(n));
      AppliesOnlyItself(env, r.store, docs[n], stamps(n));
      assert docs == docs[..n] + [docs[n]];
      OutcomesGrow(env, s, docs, stamps);
    }
  }

  lemma {:induction false} OutcomesBound(env: Env, s: Store, docs: seq<Doc>, stamps: nat -> Stamp)
    ensures |ApplyAll(env, s, docs, stamps).outcomes| <= |docs|
  {
    if docs != [] { OutcomesBound(env, s, docs[..|docs| - 1], stamps); }
  }

  lemma OutcomesGrow(env: Env, s: Store, docs: seq<Doc>, stamps: nat -> Stamp)
    requires docs != []
    ensures var n := |docs| - 1;
      var r, r' := ApplyAll(env, s, docs[..n], stamps), ApplyAll(env, s, docs, stamps);
      NothingHappens(s, docs, r') <==>
        NothingHappens(s, docs[..n], r) && ApplyOne(env, s, docs[n], stamps(n)) == (s, NoChange)
  {
    hide ApplyOne;
    var n := |docs| - 1;
    var r, r' := ApplyAll(env, s, docs[..n], stamps), ApplyAll(env, s, docs, stamps);
    OutcomesBound(env, s, docs[..n], stamps);
    AppliesOnlyItself(env, r.store, docs[n], stamps(n));
    if Stopped(r) {
      assert r.outcomes[|r.outcomes| - 1] in r.outcomes;
    } else {
      var out := ApplyOne(env, r.store, docs[n], stamps(n)).1;
      assert r'.outcomes == r.outcomes + [out];
      assert forall o :: o in r'.outcomes <==> o in r.outcomes || o == out;
      assert r'.store == ApplyOne(env, r.store, docs[n], stamps(n)).0;
      assert out == NoChange ==> ApplyOne(env, r.store, docs[n], stamps(n)) == (r.store, NoChange);
      assert out in r'.outcomes;
    }
  }

  /** Applying a bundle a second time changes nothing exactly when no document sets an envelope field. */
  lemma SecondApplyIff(env: Env, s: Store, docs: seq<Doc>, stamps: nat -> Stamp, stamps': nat -> Stamp)
    requires Faithful(env) && StoreOk(s) && DistinctKeys(docs) && !Stopped(ApplyAll(env, s, docs, stamps))
    ensures var once := ApplyAll(env, s, docs, stamps).store;
      NothingHappens(once, docs, ApplyAll(env, once, docs, stamps')) <==> forall d :: d in docs ==> !SetsEnvelope(d)
  {
    hide ApplyAll, InForce, SetsEnvelope, Faithful, StoreOk, DistinctKeys;
    var once := ApplyAll(env, s, docs, stamps).store;
    NothingHappensIff(env, once, docs, stamps');
    forall i | 0 <= i < |docs| ensures InForce(env, once, docs[i]) <==> !SetsEnvelope(docs[i]) {
      EachIsInForceIff(env, s, docs, stamps, i);
    }
  }

  // ---- validated bundles ------------------------------------------------------------------------

  lemma ValidGivesDistinctKeys(docs: seq<Doc>)
    requires Valid(docs)
    ensures DistinctKeys(docs)
  {
    hide Ident, Text, KeyOf, Wellnamed;
    forall i, j | 0 <= i < j < |docs| ensures KeyOf(docs[i]) != KeyOf(docs[j]) {
      IdentIsText(docs[i]);
      IdentIsText(docs[j]);
    }
  }

  lemma {:induction false} InsertKeepsDistinct(sorted: seq<Doc>, d: Doc)
    requires DistinctKeys(sorted) && KeyOf(d) !in KeysOf(sorted)
    ensures DistinctKeys(Insert(sorted, d)) && KeysOf(Insert(sorted, d)) == KeysOf(sorted) + {KeyOf(d)}
  {
    hide Rank, KeyOf;
    if sorted == [] || Rank(sorted[|sorted| - 1].kind) <= Rank(d.kind) {
      LastKey(sorted + [d]);
      assert (sorted + [d])[..|sorted|] == sorted;
    } else {
      var rest, last := sorted[..|sorted| - 1], sorted[|sorted| - 1];
      LastKey(sorted);
      InsertKeepsDistinct(rest, d);
      LastKey(Insert(rest, d) + [last]);
      assert (Insert(rest, d) + [last])[..|Insert(rest, d)|] == Insert(rest, d);
      assert KeyOf(last) !in KeysOf(rest) by {
        forall e | e in rest ensures KeyOf(e) != KeyOf(last) {}
      }
      forall i | 0 <= i < |Insert(rest, d)| ensures KeyOf(Insert(rest, d)[i]) != KeyOf(last) {
        assert KeyOf(Insert(rest, d)[i]) in KeysOf(Insert(rest, d));
      }
    }
  }

  lemma {:induction false} SortingKeepsDistinct(docs: seq<Doc>)
    requires DistinctKeys(docs)
    ensures DistinctKeys(Ordered(docs)) && KeysOf(Ordered(docs)) == KeysOf(docs)
  {
    hide Insert, KeyOf;
    if docs != [] {
      var n := |docs| - 1;
      SortingKeepsDistinct(docs[..n]);
      LastKey(docs);
      assert KeyOf(docs[n]) !in KeysOf(docs[..n]) by {
        forall e | e in docs[..n] ensures KeyOf(e) != KeyOf(docs[n]) {}
      }
      InsertKeepsDistinct(Ordered(docs[..n]), docs[n]);
    }
  }
}
