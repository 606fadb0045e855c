/** Declarative configuration bundles (internal/bundle/bundle.go): documents, their identities, validation, and
    the order in which they are applied. */
module BundleModel {
  import opened Basics

  /** JSON values up to encoding, so that equality is what comparing two normalised values tells. */
  datatype Json =
    | Null
    | Flag(flag: bool)
    | Num(num: real)
    | Str(str: string)
    | Arr(items: seq<Json>)
    | Obj(fields: map<string, Json>)

  type Body = map<string, Json>

  /** A field that is absent reads as null. */
  function Lookup(b: Body, key: string): Json { if key in b then b[key] else Null }

  type Labels = map<string, string>

  datatype Meta = Meta(name: string, host: string, folder: string, labels: Maybe<Labels>)

  datatype Doc = Doc(kind: string, meta: Meta, spec: Body, data: Body)

  // ---- identities -------------------------------------------------------------------------------

  /** What a document is about, as the store keys it. */
  datatype Key =
    | HostKey(name: string)
    | ServiceKey(host: string, name: string)
    | ResourceKey(kind: string, name: string)

  function KeyOf(d: Doc): Key {
    if d.kind == "Host" then HostKey(d.meta.name)
    else if d.kind == "Service" then ServiceKey(d.meta.host, d.meta.name)
    else ResourceKey(d.kind, d.meta.name)
  }

  /** The identity string that plans and validation compare. */
  function Ident(d: Doc): string {
    if d.kind == "Service" then d.kind + "/" + d.meta.host + "/" + d.meta.name else d.kind + "/" + d.meta.name
  }

  function Text(k: Key): string {
    match k
    case HostKey(name) => "Host/" + name
    case ServiceKey(host, name) => "Service/" + host + "/" + name
    case ResourceKey(kind, name) => kind + "/" + name
  }

  predicate PlainKind(kind: string) { SlashFree(kind) && kind != "Host" && kind != "Service" }

  predicate Proper(k: Key) { k.ResourceKey? ==> PlainKind(k.kind) }

  function Head(k: Key): string {
    match k case HostKey(_) => "Host" case ServiceKey(_, _) => "Service" case ResourceKey(kind, _) => kind
  }

  function Tail(k: Key): string {
    match k
    case HostKey(name) => name
    case ServiceKey(host, name) => host + "/" + name
    case ResourceKey(_, name) => name
  }

  lemma TextSplits(k: Key)
    ensures Text(k) == Head(k) + "/" + Tail(k)
    ensures Proper(k) ==> SlashFree(Head(k))
  {
    if k.ServiceKey? { assert "Service/" + k.host + "/" + k.name == "Service" + "/" + (k.host + "/" + k.name); }
    if k.HostKey? { assert "Host/" + k.name == "Host" + "/" + k.name; }
  }

  /** The string says which thing is meant, except that for two services it does not say where the host's name ends. */
  lemma SameTextIff(a: Key, b: Key)
    requires Proper(a) && Proper(b)
    ensures Text(a) == Text(b) <==>
      a == b || (a.ServiceKey? && b.ServiceKey? && a.host + "/" + a.name == b.host + "/" + b.name)
  {
    hide Text, SlashFree;
    TextSplits(a);
    TextSplits(b);
    if Text(a) == Text(b) { FirstSlashSplits(Head(a), Tail(a), Head(b), Tail(b)); }
  }

  /** Without slashes in host names the string and the thing determine each other. */
  lemma TextIsFaithful(a: Key, b: Key)
    requires Proper(a) && Proper(b)
    requires (a.ServiceKey? ==> SlashFree(a.host)) && (b.ServiceKey? ==> SlashFree(b.host))
    ensures Text(a) == Text(b) <==> a == b
  {
    hide Text, SlashFree;
    SameTextIff(a, b);
    if a.ServiceKey? && b.ServiceKey? && a.host + "/" + a.name == b.host + "/" + b.name {
      FirstSlashSplits(a.host, a.name, b.host, b.name);
    }
  }

  lemma IdentIsText(d: Doc)
    ensures Ident(d) == Text(KeyOf(d))
  {
    if d.kind == "Service" { assert "Service" + "/" == "Service/"; }
    if d.kind == "Host" { assert "Host" + "/" == "Host/"; }
  }

  // ---- validation -------------------------------------------------------------------------------

  datatype Fault = Duplicate(ident: string) | NeedsHost(ident: string) | BadName(ident: string)

  /** What parsing and validation ask of one document. */
  predicate Legible(d: Doc) { Known(d.kind) && d.meta.name != "" && Wellnamed(d) }

  /** A bundle that can be uploaded. */
  ghost predicate Readable(docs: seq<Doc>) { Valid(docs) && forall d :: d in docs ==> Legible(d) }

  predicate Wellnamed(d: Doc) {
    && (d.kind == "Service" ==> d.meta.host != "")
    && '\n' !in d.meta.name && '\t' !in d.meta.name
  }

  ghost predicate NoTwins(docs: seq<Doc>) {
    forall i, j :: 0 <= i < j < |docs| ==> Ident(docs[i]) != Ident(docs[j])
  }

  ghost predicate Valid(docs: seq<Doc>) {
    NoTwins(docs) && forall i :: 0 <= i < |docs| ==> Wellnamed(docs[i])
  }

  method Validate(docs: seq<Doc>) returns (faults: seq<Fault>)
    ensures faults == [] <==> Valid(docs)
  {
    hide Ident;
    faults := [];
    var seen: set<string> := {};
    for n := 0 to |docs|
      invariant seen == set i | 0 <= i < n :: Ident(docs[i])
      invariant faults == [] <==> Valid(docs[..n])
    {
      var d := docs[n];
      var ident := Ident(d);
      ghost var before := faults;
      assert docs[..n + 1] == docs[..n] + [d];
      assert ident in seen <==> exists i :: 0 <= i < n && Ident(docs[i]) == ident;
      ValidGrows(docs, n);
      if ident in seen { faults := faults + [Duplicate(ident)]; }
      seen := seen + {ident};
      if d.kind == "Service" && d.meta.host == "" { faults := faults + [NeedsHost(ident)]; }
      if '\n' in d.meta.name || '\t' in d.meta.name { faults := faults + [BadName(ident)]; }
    }
    assert docs[..|docs|] == docs;
  }

  /** Reading an upload: parsing refuses unknown kinds and missing names, validation the rest. */
  method ReadBundle(docs: seq<Doc>) returns (ok: bool)
    ensures ok <==> Readable(docs)
  {
    hide Known, NoTwins;
    for i := 0 to |docs|
      invariant forall j :: 0 <= j < i ==> Known(docs[j].kind) && docs[j].meta.name != ""
    {
      if !Known(docs[i].kind) || docs[i].meta.name == "" {
        assert docs[i] in docs;
        return false;
      }
    }
    var faults := Validate(docs);
    return faults == [];
  }

  lemma ValidGrows(docs: seq<Doc>, n: nat)
    requires n < |docs|
    ensures Valid(docs[..n + 1]) <==>
      Valid(docs[..n]) && Wellnamed(docs[n]) && forall i :: 0 <= i < n ==> Ident(docs[i]) != Ident(docs[n])
  {
    hide Ident, Wellnamed;
    var more, less := docs[..n + 1], docs[..n];
    assert forall i :: 0 <= i < n ==> more[i] == less[i] == docs[i];
    assert more[n] == docs[n];
    if Valid(more) {
      forall i, j | 0 <= i < j < n ensures Ident(less[i]) != Ident(less[j]) {
        assert Ident(more[i]) != Ident(more[j]);
      }
    }
  }

  // ---- order of application ---------------------------------------------------------------------

  /** Dependencies before dependents. */
  const KIND_ORDER: seq<string> := [
    "Tenant", "Role", "TimePeriod", "CheckCommand", "Template",
    "Contact", "ContactGroup", "TTSProfile", "Channel", "Schedule", "IVRMenu",
    "EscalationPolicy", "EventSource", "AlertGroup", "AlertRule",
    "Host", "Service", "BusinessService", "Heartbeat",
    "Dashboard", "Report", "StaticGroup", "WebhookSubscription",
    "SavedFilter"]

  /** The kinds kept as resource documents. */
  const RESOURCE_KINDS: set<string> := {
    "Template", "CheckCommand", "TimePeriod", "AlertRule", "AlertGroup", "EscalationPolicy", "Schedule", "Contact",
    "ContactGroup", "Channel", "EventSource", "BusinessService", "Dashboard", "Report", "StaticGroup",
    "WebhookSubscription", "SavedFilter", "Role", "IVRMenu", "TTSProfile"}

  /** Kinds a bundle may contain; parsing refuses any other. */
  predicate Known(kind: string) { kind in KIND_ORDER }

  lemma KnownKindsAreSlashFree(kind: string)
    requires Known(kind)
    ensures SlashFree(kind)
  {}

  predicate Supported(kind: string) { kind == "Host" || kind == "Service" || kind in RESOURCE_KINDS }

  function RankFrom(kind: string, i: nat): (r: nat)
    requires i <= |KIND_ORDER|
    ensures i <= r <= |KIND_ORDER|
    ensures r < |KIND_ORDER| ==> KIND_ORDER[r] == kind
    ensures forall j :: i <= j < r ==> KIND_ORDER[j] != kind
    decreases |KIND_ORDER| - i
  {
    if i == |KIND_ORDER| || KIND_ORDER[i] == kind then i else RankFrom(kind, i + 1)
  }

  /** Position in the order; unknown kinds come last. */
  function Rank(kind: string): nat { RankFrom(kind, 0) }

  lemma HostsRankBeforeServices()
    ensures Rank("Host") == 15 && Rank("Service") == 16
  {
    assert |KIND_ORDER| == 24 && KIND_ORDER[15] == "Host" && KIND_ORDER[16] == "Service";
    assert forall j :: 0 <= j < 15 ==> KIND_ORDER[j] != "Host" && KIND_ORDER[j] != "Service";
  }

  function Insert(sorted: seq<Doc>, d: Doc): seq<Doc> {
    if sorted == [] || Rank(sorted[|sorted| - 1].kind) <= Rank(d.kind) then sorted + [d]
    else Insert(sorted[..|sorted| - 1], d) + [sorted[|sorted| - 1]]
  }

  /** The documents sorted by kind, equal kinds in the order given. */
  function Ordered(docs: seq<Doc>): seq<Doc> {
    if docs == [] then [] else Insert(Ordered(docs[..|docs| - 1]), docs[|docs| - 1])
  }

  ghost predicate ByRank(docs: seq<Doc>) {
    forall i, j :: 0 <= i < j < |docs| ==> Rank(docs[i].kind) <= Rank(docs[j].kind)
  }

  function OfRank(docs: seq<Doc>, r: nat): seq<Doc> {
    if docs == [] then []
    else OfRank(docs[..|docs| - 1], r) + if Rank(docs[|docs| - 1].kind) == r then [docs[|docs| - 1]] else []
  }

  lemma OfRankOfAppend(docs: seq<Doc>, d: Doc, r: nat)
    ensures OfRank(docs + [d], r) == OfRank(docs, r) + if Rank(d.kind) == r then [d] else []
  {
    hide Rank;
    assert (docs + [d])[..|docs|] == docs;
  }

  lemma {:induction false} InsertKeepsAll(sorted: seq<Doc>, d: Doc)
    ensures multiset(Insert(sorted, d)) == multiset(sorted) + multiset{d}
  {
    hide Rank;
    if !(sorted == [] || Rank(sorted[|sorted| - 1].kind) <= Rank(d.kind)) {
      InsertKeepsAll(sorted[..|sorted| - 1], d);
      assert sorted == sorted[..|sorted| - 1] + [sorted[|sorted| - 1]];
    }
  }

  lemma {:induction false} InsertKeepsOrder(sorted: seq<Doc>, d: Doc)
    requires ByRank(sorted)
    ensures ByRank(Insert(sorted, d))
  {
    hide Rank;
    if !(sorted == [] || Rank(sorted[|sorted| - 1].kind) <= Rank(d.kind)) {
      var rest, last := sorted[..|sorted| - 1], sorted[|sorted| - 1];
      InsertKeepsOrder(rest, d);
      InsertKeepsAll(rest, d);
      forall i | 0 <= i < |Insert(rest, d)| ensures Rank(Insert(rest, d)[i].kind) <= Rank(last.kind) {
        assert Insert(rest, d)[i] in multiset(Insert(rest, d));
      }
    }
  }

  lemma {:induction false} InsertKeepsRanks(sorted: seq<Doc>, d: Doc, r: nat)
    requires ByRank(sorted)
    ensures OfRank(Insert(sorted, d), r) == OfRank(sorted, r) + if Rank(d.kind) == r then [d] else []
  {
    hide Rank;
    if sorted == [] || Rank(sorted[|sorted| - 1].kind) <= Rank(d.kind) {
      OfRankOfAppend(sorted, d, r);
    } else {
      var rest, last := sorted[..|sorted| - 1], sorted[|sorted| - 1];
      InsertKeepsRanks(rest, d, r);
      OfRankOfAppend(Insert(rest, d), last, r);
    }
  }

  /** Sorting keeps exactly the documents, orders them by kind, and keeps the order within each kind. */
  lemma {:induction false} OrderedIsStableSort(docs: seq<Doc>, r: nat)
    ensures multiset(Ordered(docs)) == multiset(docs) && ByRank(Ordered(docs))
    ensures OfRank(Ordered(docs), r) == OfRank(docs, r)
  {
    hide Rank, Insert;
    if docs != [] {
      var rest, last := docs[..|docs| - 1], docs[|docs| - 1];
      assert docs == rest + [last];
      OrderedIsStableSort(rest, r);
      InsertKeepsAll(Ordered(rest), last);
      InsertKeepsOrder(Ordered(rest), last);
      InsertKeepsRanks(Ordered(rest), last, r);
    }
  }
}
